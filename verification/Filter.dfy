/** Which lines and which files the filters let in. */
module Filter {
  /** std::string::find finds the pattern at place i. */
  predicate FoundAt(text: string, pattern: string, i: nat) {
    i + |pattern| <= |text| && text[i..i + |pattern|] == pattern
  }

  predicate Found(text: string, pattern: string) {
    exists i :: 0 <= i <= |text| && FoundAt(text, pattern, i)
  }

  predicate AnyFound(text: string, patterns: seq<string>) {
    exists p :: p in patterns && Found(text, p)
  }

  datatype Patterns = Patterns(single: seq<string>, begin: seq<string>, end: seq<string>)

  datatype State = State(file: string, depth: int)

  /** A source line of a file. */
  datatype Line = Line(file: string, text: string)

  function Start(p: Patterns, text: string): int {
    if AnyFound(text, p.begin) then 1 else 0
  }

  function Stop(p: Patterns, text: string): int {
    if AnyFound(text, p.end) then 1 else 0
  }

  function Clamped(d: int): (r: int)
    ensures r >= 0
  {
    if d < 0 then 0 else d
  }

  /** The counter when a line of the file is met: zero if the file has changed. */
  function Entering(s: State, file: string): int {
    if s.file != file then 0 else s.depth
  }

  function Next(p: Patterns, s: State, l: Line): State {
    State(l.file, Clamped(Entering(s, l.file) + Start(p, l.text) - Stop(p, l.text)))
  }

  /** The counter after all these lines, from a handler that has seen none. */
  function Run(p: Patterns, lines: seq<Line>): State {
    if lines == [] then State("", 0) else Next(p, Run(p, lines[..|lines| - 1]), lines[|lines| - 1])
  }

  // ----- the closed form -----

  /** Starts less stops on the lines from j on. */
  function Net(p: Patterns, lines: seq<Line>, j: nat): int
    requires j <= |lines|
    decreases |lines| - j
  {
    if j == |lines| then 0 else Start(p, lines[j].text) - Stop(p, lines[j].text) + Net(p, lines, j + 1)
  }

  ghost predicate OneFile(lines: seq<Line>, file: string) {
    forall i :: 0 <= i < |lines| ==> lines[i].file == file
  }

  /** d is the largest net of any stretch that ends with the last line, the empty one included. */
  ghost predicate LargestNet(p: Patterns, lines: seq<Line>, d: int) {
    && (forall j :: 0 <= j <= |lines| ==> Net(p, lines, j) <= d)
    && (exists j :: 0 <= j <= |lines| && Net(p, lines, j) == d)
  }

  lemma {:induction false} NetGrows(p: Patterns, lines: seq<Line>, l: Line, j: nat)
    requires j <= |lines|
    ensures Net(p, lines + [l], j) == Net(p, lines, j) + Start(p, l.text) - Stop(p, l.text)
    decreases |lines| - j
  {
    if j < |lines| {
      NetGrows(p, lines, l, j + 1);
    } else {
      assert Net(p, lines + [l], j + 1) == 0;
    }
  }

  lemma LargestNetGrows(p: Patterns, lines: seq<Line>, l: Line, d: int)
    requires LargestNet(p, lines, d)
    ensures LargestNet(p, lines + [l], Clamped(d + Start(p, l.text) - Stop(p, l.text)))
  {
    var more := lines + [l];
    var next := Clamped(d + Start(p, l.text) - Stop(p, l.text));
    forall j | 0 <= j <= |more| ensures Net(p, more, j) <= next {
      if j <= |lines| {
        NetGrows(p, lines, l, j);
      }
    }
    var k :| 0 <= k <= |lines| && Net(p, lines, k) == d;
    NetGrows(p, lines, l, k);
    assert Net(p, more, if next == 0 then |more| else k) == next;
  }

  lemma {:induction false} DepthIsLargestNet(p: Patterns, before: seq<Line>, lines: seq<Line>, file: string)
    requires OneFile(lines, file) && lines != [] && Run(p, before).file != file
    ensures Run(p, before + lines).file == file && LargestNet(p, lines, Run(p, before + lines).depth)
    decreases |lines|
  {
    var last := |lines| - 1;
    var l := lines[last];
    assert (before + lines)[..|before + lines| - 1] == before + lines[..last];
    assert lines[..last] + [l] == lines;
    if last == 0 {
      assert before + lines[..0] == before;
      assert Net(p, [], 0) == 0;
      assert LargestNet(p, [], 0);
      LargestNetGrows(p, [], l, 0);
      assert [] + [l] == lines;
    } else {
      DepthIsLargestNet(p, before, lines[..last], file);
      LargestNetGrows(p, lines[..last], l, Run(p, before + lines[..last]).depth);
    }
  }

  // ----- dropping a line -----

  /** What match answers: false drops the line. */
  predicate Kept(p: Patterns, s: State, l: Line) {
    !AnyFound(l.text, p.single) && Entering(s, l.file) + Start(p, l.text) <= 0
  }

  /** How many lines from j on have one of the patterns. */
  ghost function Having(lines: seq<Line>, patterns: seq<string>, j: nat): nat
    requires j <= |lines|
    decreases |lines| - j
  {
    if j == |lines| then 0
    else Having(lines, patterns, j + 1) + if exists q :: q in patterns && Found(lines[j].text, q) then 1 else 0
  }

  lemma {:induction false} NetIs(p: Patterns, lines: seq<Line>, j: nat)
    requires j <= |lines|
    ensures Net(p, lines, j) == Having(lines, p.begin, j) - Having(lines, p.end, j)
    decreases |lines| - j
  {
    if j < |lines| {
      NetIs(p, lines, j + 1);
    }
  }

  /** On some stretch that ends with the last line more lines have a start than have a stop. */
  ghost predicate Excluding(p: Patterns, lines: seq<Line>) {
    exists j :: 0 <= j <= |lines| && Having(lines, p.begin, j) > Having(lines, p.end, j)
  }

  lemma PositiveIff(p: Patterns, lines: seq<Line>, d: int)
    requires LargestNet(p, lines, d)
    ensures d > 0 <==> Excluding(p, lines)
  {
    var k :| 0 <= k <= |lines| && Net(p, lines, k) == d;
    NetIs(p, lines, k);
    if j :| 0 <= j <= |lines| && Having(lines, p.begin, j) > Having(lines, p.end, j) {
      NetIs(p, lines, j);
      assert Net(p, lines, j) <= d;
    }
  }

  /** In one pass through a file, a line is dropped exactly if it has a single-line mark, starts a region
      itself, or some stretch of lines just before it has more starts than stops. */
  lemma DroppedIff(p: Patterns, before: seq<Line>, lines: seq<Line>, l: Line)
    requires OneFile(lines, l.file) && Run(p, before).file != l.file
    ensures !Kept(p, Run(p, before + lines), l) <==>
              || (exists q :: q in p.single && Found(l.text, q)) || (exists q :: q in p.begin && Found(l.text, q))
              || Excluding(p, lines)
  {
    var d := Entering(Run(p, before + lines), l.file);
    assert LargestNet(p, lines, d) && d >= 0 by {
      if lines == [] {
        assert before + lines == before;
        assert Net(p, lines, 0) == 0;
      } else {
        DepthIsLargestNet(p, before, lines, l.file);
        assert Net(p, lines, |lines|) == 0;
      }
    }
    PositiveIff(p, lines, d);
    var b := AnyFound(l.text, p.begin);
    assert Start(p, l.text) == if b then 1 else 0;
    assert Kept(p, Run(p, before + lines), l) <==> !AnyFound(l.text, p.single) && !b && d <= 0;
  }

  class FileLineHandler {
    const patterns: Patterns
    var curFile: string
    var excludeStart: int

    ghost function View(): State
      reads this
    {
      State(curFile, excludeStart)
    }

    constructor (p: Patterns)
      ensures patterns == p && View() == Run(p, [])
    {
      patterns := p;
      curFile, excludeStart := "", 0;
    }

    /** A loop over patterns that stops at the first one found. */
    method FindAny(text: string, list: seq<string>) returns (found: bool)
      ensures found == AnyFound(text, list)
    {
      found := false;
      for i := 0 to |list|
        invariant !found && forall k :: 0 <= k < i ==> !Found(text, list[k])
      {
        if Found(text, list[i]) {
          return true;
        }
      }
    }

    method Match(filePath: string, line: string) returns (out: bool)
      modifies this
      ensures out == Kept(patterns, old(View()), Line(filePath, line))
      ensures View() == Next(patterns, old(View()), Line(filePath, line))
    {
      out := true;
      if curFile != filePath {
        excludeStart := 0;
        curFile := filePath;
      }
      var single := FindAny(line, patterns.single);
      if single {
        out := false;
      }
      var begins := FindAny(line, patterns.begin);
      if begins {
        excludeStart := excludeStart + 1;
      }
      if excludeStart > 0 {
        out := false;
      }
      var ends := FindAny(line, patterns.end);
      if ends {
        excludeStart := excludeStart - 1;
      }
      if excludeStart < 0 {
        excludeStart := 0;
      }
    }
  }

  // ----- whole files -----

  /** PatternHandler::includeFile: in if any include pattern matches or there is none, out if any exclude
      pattern does; the last word is the excludes'. */
  method IncludeByPattern(file: string, includes: seq<string>, excludes: seq<string>) returns (out: bool)
    ensures out <==> (includes == [] || AnyFound(file, includes)) && !AnyFound(file, excludes)
  {
    if includes == [] && excludes == [] {
      return true;
    }
    out := true;
    if includes != [] {
      out := false;
    }
    for i := 0 to |includes|
      invariant out <==> includes == [] || exists k :: 0 <= k < i && Found(file, includes[k])
    {
      if Found(file, includes[i]) {
        out := true;
      }
    }
    ghost var taken := out;
    for i := 0 to |excludes|
      invariant out <==> taken && forall k :: 0 <= k < i ==> !Found(file, excludes[k])
    {
      if Found(file, excludes[i]) {
        out := false;
      }
    }
  }

  /** The path is the directory or file itself, or lies below it. */
  predicate Below(path: string, dir: string) {
    dir <= path && (|path| <= |dir| || path[|dir|] == '/')
  }

  lemma BelowIs(path: string, dir: string)
    ensures Below(path, dir) <==> path == dir || dir + "/" <= path
  {
    if dir <= path && |path| > |dir| {
      assert path[..|dir| + 1] == path[..|dir|] + [path[|dir|]];
    }
  }

  method AnyAbove(path: string, dirs: seq<string>) returns (found: bool)
    ensures found <==> exists d :: d in dirs && (path == d || d + "/" <= path)
  {
    found := false;
    for i := 0 to |dirs|
      invariant !found && forall k :: 0 <= k < i ==> !(path == dirs[k] || dirs[k] + "/" <= path)
    {
      BelowIs(path, dirs[i]);
      if Below(path, dirs[i]) {
        return true;
      }
    }
  }

  /** PathHandler::includeFile on real paths. */
  method IncludeByPath(path: string, includes: seq<string>, excludes: seq<string>) returns (out: bool)
    ensures out <==> && (includes == [] || exists d :: d in includes && (path == d || d + "/" <= path))
                     && !exists d :: d in excludes && (path == d || d + "/" <= path)
  {
    if includes == [] && excludes == [] {
      return true;
    }
    out := true;
    if includes != [] {
      out := AnyAbove(path, includes);
    }
    var excluded := AnyAbove(path, excludes);
    if excluded {
      out := false;
    }
  }
}
