/** Which lines of a bash script count as code. The basic parser looks at one line at a time, the full one follows
    continued lines, quotes, here documents, arithmetic and case switches as well. */
module BashParser {
  // ----- strings -----

  predicate At(s: string, pat: string, i: nat) {
    i + |pat| <= |s| && s[i..i + |pat|] == pat
  }

  predicate Has(s: string, pat: string) {
    exists i :: 0 <= i <= |s| && At(s, pat, i)
  }

  /** std::string::find; the place after the end stands for npos. */
  function Find(s: string, pat: string): (i: nat)
    ensures i < |s| + 1 ==> At(s, pat, i)
    ensures i == |s| + 1 ==> !Has(s, pat)
  {
    FindFrom(s, pat, 0)
  }

  function FindFrom(s: string, pat: string, from: nat): (i: nat)
    requires from <= |s| + 1
    ensures from <= i <= |s| + 1
    ensures i <= |s| ==> At(s, pat, i)
    ensures i == |s| + 1 ==> forall j :: from <= j <= |s| ==> !At(s, pat, j)
    decreases |s| + 1 - from
  {
    if from == |s| + 1 || At(s, pat, from) then from else FindFrom(s, pat, from + 1)
  }

  function TrimmedEnd(s: string, chars: string): (r: string)
    ensures r <= s
  {
    if s == [] || s[|s| - 1] !in chars then s else TrimmedEnd(s[..|s| - 1], chars)
  }

  function TrimmedStart(s: string): (r: string)
    ensures |r| <= |s|
  {
    if s == [] || s[0] !in " \t" then s else TrimmedStart(s[1..])
  }

  const BLANKS: string := " \t\n\r"

  /** trim_string: a string of nothing but such characters keeps its end. */
  function Trim(s: string, chars: string): (r: string) {
    TrimmedStart(if TrimmedEnd(s, chars) == [] then s else TrimmedEnd(s, chars))
  }

  // ----- a parser going through lines -----

  /** What comes of a line: the state after it, and whether it is code. */
  datatype Verdict<S> = Verdict(state: S, code: bool)

  function After<S>(step: (S, string) -> Verdict<S>, start: S, lines: seq<string>): S {
    if lines == [] then start else step(After(step, start, lines[..|lines| - 1]), lines[|lines| - 1]).state
  }

  /** The numbers of the lines that are code. */
  function Reported<S>(step: (S, string) -> Verdict<S>, start: S, lines: seq<string>): seq<nat> {
    if lines == [] then []
    else
      var before := lines[..|lines| - 1];
      Reported(step, start, before) + if step(After(step, start, before), lines[|lines| - 1]).code then [|lines|] else []
  }

  predicate CodeAt<S>(step: (S, string) -> Verdict<S>, start: S, lines: seq<string>, n: nat) {
    1 <= n <= |lines| && step(After(step, start, lines[..n - 1]), lines[n - 1]).code
  }

  lemma {:induction false} ReportedAre<S>(step: (S, string) -> Verdict<S>, start: S, lines: seq<string>, n: nat)
    ensures n in Reported(step, start, lines) <==> CodeAt(step, start, lines, n)
  {
    if lines != [] {
      var before := lines[..|lines| - 1];
      ReportedAre(step, start, before, n);
      if 1 <= n < |lines| {
        assert before[..n - 1] == lines[..n - 1];
      }
    }
  }

  /** A parser that reports a line only if another does so in any state reports no other lines. */
  lemma {:induction false} ReportsWithin<S(!new), T(!new)>(step: (S, string) -> Verdict<S>, start: S,
                                                           other: (T, string) -> Verdict<T>, begin: T, lines: seq<string>)
    requires forall s, t, l :: step(s, l).code ==> other(t, l).code
    ensures forall n :: n in Reported(step, start, lines) ==> n in Reported(other, begin, lines)
  {
    if lines != [] {
      ReportsWithin(step, start, other, begin, lines[..|lines| - 1]);
    }
  }

  lemma OneMoreLine<S>(step: (S, string) -> Verdict<S>, start: S, lines: seq<string>, k: nat)
    requires k < |lines|
    ensures var v := step(After(step, start, lines[..k]), lines[k]);
            && After(step, start, lines[..k + 1]) == v.state
            && Reported(step, start, lines[..k + 1]) == Reported(step, start, lines[..k]) + if v.code then [k + 1] else []
  {
    assert lines[..k + 1][..k] == lines[..k];
  }

  /** A line met while st holds leads to `next` and is no code. */
  ghost predicate Leads<S>(step: (S, string) -> Verdict<S>, st: S, line: string, next: S) {
    step(st, line) == Verdict(next, false)
  }

  /** While each line leads from st back to st, it stays; then comes one more, to `next`. */
  lemma {:induction false} Swallowed<S>(step: (S, string) -> Verdict<S>, start: S, lines: seq<string>, from: nat, n: nat,
                                        st: S, next: S)
    requires from < n <= |lines| && After(step, start, lines[..from]) == st
    requires forall k :: from <= k < n - 1 ==> Leads(step, st, lines[k], st)
    requires Leads(step, st, lines[n - 1], next)
    ensures After(step, start, lines[..n]) == next && n !in Reported(step, start, lines)
    decreases n
  {
    if from < n - 1 {
      assert Leads(step, st, lines[n - 2], st);
      Swallowed(step, start, lines, from, n - 1, st, st);
    }
    assert lines[..n][..n - 1] == lines[..n - 1];
    ReportedAre(step, start, lines, n);
  }

  // ----- what both parsers do to a line first -----

  /** A # that is no comment: $# or ${#variable}, or after a quotation mark. */
  predicate HashInCode(s: string, at: nat)
    requires at < |s|
  {
    || (at >= 1 && s[at - 1] == '$')
    || (at >= 2 && (exists i :: 0 <= i <= at && At(s, "${", i)) && (exists i :: at <= i <= |s| && At(s, "}", i)))
    || (at >= 1 && exists i :: 0 <= i < at && (s[i] == '"' || s[i] == '\''))
  }

  function Cleaned(raw: string): string {
    var s := Trim(raw, BLANKS);
    var at := Find(s, "#");
    if at >= |s| || HashInCode(s, at) then s else CutAt(Trim(s, BLANKS), at)
  }

  function CutAt(s: string, at: nat): string {
    if at <= |s| then s[..at] else s
  }

  function CleanedAll(lines: seq<string>): (r: seq<string>)
    ensures |r| == |lines| && forall k :: 0 <= k < |lines| ==> r[k] == Cleaned(lines[k])
  {
    seq(|lines|, k requires 0 <= k < |lines| => Cleaned(lines[k]))
  }

  predicate Keyword(s: string) {
    s == "esac" || s == "fi" || s == "do" || s == "done" || s == "else" || s == "then"
  }

  predicate Bracket(s: string) {
    s == "{" || s == "}" || s == "(" || s == ")"
  }

  // ----- the basic parser -----

  /** A line is code unless nothing is left of it, it only opens or closes something, or it names a function. */
  predicate BasicCode(s: string) {
    s != "" && !Keyword(s) && !Bracket(s) && !("function" <= s)
  }

  /** The basic parser keeps nothing from line to line. */
  function Basic(st: bool, s: string): Verdict<bool> {
    Verdict(st, BasicCode(s))
  }

  method ParseFileBasic(lines: seq<string>) returns (found: seq<nat>)
    ensures found == Reported(Basic, false, CleanedAll(lines))
  {
    ghost var texts := CleanedAll(lines);
    found := [];
    for lineNo := 0 to |lines|
      invariant found == Reported(Basic, false, texts[..lineNo]) && !After(Basic, false, texts[..lineNo])
    {
      OneMoreLine(Basic, false, texts, lineNo);
      var code := BasicLine(Cleaned(lines[lineNo]));
      if code {
        found := found + [lineNo + 1];
      }
    }
    assert texts[..|lines|] == texts;
  }

  /** The body of the loop. */
  method BasicLine(s: string) returns (code: bool)
    ensures code == BasicCode(s)
  {
    if s == "" {
      return false;
    }
    if Keyword(s) || Bracket(s) {
      return false;
    }
    if "function" <= s {
      return false;
    }
    return true;
  }

  // ----- the full parser -----

  datatype Mode = Plain | Backslash | Quote | Heredoc

  datatype State = State(mode: Mode, caseActive: bool, arithmetic: bool, marker: string)

  const START: State := State(Plain, false, false, "")

  /** fn() with nothing but a name before the parentheses. */
  function NameEnd(s: string, at: nat): (r: nat)
    requires at <= |s|
    ensures r <= at
  {
    if at > 1 && s[at - 1] == ' ' then NameEnd(s, at - 1) else at
  }

  predicate DefinesFunction(s: string) {
    var at := Find(s, "()");
    at <= |s| && !Has(s[..NameEnd(s, at)], " ")
  }

  /** Lines that are no code in any state, and change none. */
  predicate Passed(s: string) {
    || s == "" || (|s| >= 2 && s[..2] == ";;") || Bracket(s) || Keyword(s) || "function" <= s || DefinesFunction(s)
  }

  function Quotes(s: string): nat {
    if s == [] then 0 else Quotes(s[..|s| - 1]) + if s[|s| - 1] == '"' then 1 else 0
  }

  function FirstWord(s: string): string {
    if s == [] || s[0] == ' ' || s[0] == '\t' then [] else [s[0]] + FirstWord(s[1..])
  }

  function Unquoted(s: string): string {
    if |s| > 2 && (s[0] == '"' || s[0] == '\'') && s[0] == s[|s| - 1] then s[1..|s| - 1] else s
  }

  /** The word after <<, which ends the document. */
  function MarkerOf(s: string, at: nat): string
    requires at + 2 <= |s|
  {
    var rest := s[at + 2..];
    var word := if rest != [] && rest[0] == '-' then rest[1..] else rest;
    Unquoted(FirstWord(Trim(word, BLANKS)))
  }

  predicate OpensDocument(st: State, s: string) {
    !st.arithmetic && !("let " <= s) && !Has(s, "$((") && !Has(s, "))") && Has(s, "<<")
  }

  predicate OpensQuote(s: string) {
    (Has(s, "=\"") || Has(s, "= \"")) && Quotes(s) == 1
  }

  /** The tail of the loop: case switches and arithmetic. */
  function Last(st: State, s: string): Verdict<State>
    requires s != ""
  {
    var active := if "case" <= s then true else if "esac" <= s then false else st.caseActive;
    var t := st.(caseActive := active, arithmetic := st.arithmetic && !Has(s, "))") && !Has(s, "]"));
    var switch := t.caseActive && s[|s| - 1] == ')' && (Find(s, "(") == 0 || !Has(s, "("));
    Verdict(t, !t.arithmetic && !switch)
  }

  /** A line met in no document and no continued line. */
  function Read(st: State, s: string): Verdict<State>
    requires s != ""
  {
    var u := if Has(s, "$((") || Has(s, "$[") then st.(arithmetic := true) else st;
    if s[|s| - 1] == '\\' then Last(u.(mode := Backslash), s)
    else if OpensQuote(s) then Verdict(u.(mode := Quote), false)
    else if OpensDocument(u, s) then
      var at := Find(s, "<<");
      var marker := MarkerOf(s, at);
      var v := u.(marker := marker, mode := if marker != "" && marker[0] != '<' then Heredoc else u.mode);
      if Trim(s[..at], BLANKS) == "done" then Verdict(v, false) else Last(v, s)
    else Last(u, s)
  }

  function Full(st: State, s: string): Verdict<State> {
    if Passed(s) then Verdict(st, false)
    else if st.mode == Backslash then Verdict(if s[|s| - 1] != '\\' then st.(mode := Plain) else st, false)
    else if st.mode == Quote && Find(s, "\"") != |s| - 1 then Verdict(st, false)
    else if st.mode == Quote then Read(st.(mode := Plain), s)
    else if st.mode == Heredoc then
      Verdict(if Trim(s, " \t\r\n`") == st.marker then st.(mode := Plain) else st, false)
    else Read(st, s)
  }

  lemma CodeIsBasic(st: State, t: bool, s: string)
    requires Full(st, s).code
    ensures Basic(t, s).code
  {
  }

  /** The full parser reports only lines the basic one reports. */
  lemma FullWithinBasic(lines: seq<string>)
    ensures forall n :: n in Reported(Full, START, CleanedAll(lines)) ==> n in Reported(Basic, false, CleanedAll(lines))
  {
    forall st, t, s | Full(st, s).code ensures Basic(t, s).code {
      CodeIsBasic(st, t, s);
    }
    ReportsWithin(Full, START, Basic, false, CleanedAll(lines));
  }

  /** The line that is the marker and is not passed over in any state. */
  predicate Ends(s: string, marker: string) {
    !Passed(s) && Trim(s, " \t\r\n`") == marker
  }

  predicate Continues(s: string) {
    s != "" && s[|s| - 1] == '\\'
  }

  lemma DocumentGoesOn(st: State, s: string)
    requires st.mode.Heredoc?
    ensures Leads(Full, st, s, if Ends(s, st.marker) then st.(mode := Plain) else st)
  {
  }

  lemma ContinuationGoesOn(st: State, s: string)
    requires st.mode.Backslash?
    ensures Leads(Full, st, s, if Passed(s) || Continues(s) then st else st.(mode := Plain))
  {
  }

  /** A here document swallows every line up to and including the one that is its marker. */
  lemma DocumentIsSwallowed(texts: seq<string>, from: nat, n: nat, st: State)
    requires from < n <= |texts| && After(Full, START, texts[..from]) == st && st.mode.Heredoc?
    requires forall k :: from <= k < n - 1 ==> !Ends(texts[k], st.marker)
    ensures n !in Reported(Full, START, texts)
    ensures After(Full, START, texts[..n]) == if Ends(texts[n - 1], st.marker) then st.(mode := Plain) else st
  {
    forall k | from <= k < n - 1 ensures Leads(Full, st, texts[k], st) {
      DocumentGoesOn(st, texts[k]);
    }
    DocumentGoesOn(st, texts[n - 1]);
    Swallowed(Full, START, texts, from, n, st, if Ends(texts[n - 1], st.marker) then st.(mode := Plain) else st);
  }

  /** A continued line swallows the lines up to the first that is not continued itself. */
  lemma ContinuationIsSwallowed(texts: seq<string>, from: nat, n: nat, st: State)
    requires from < n <= |texts| && After(Full, START, texts[..from]) == st && st.mode.Backslash?
    requires forall k :: from <= k < n - 1 ==> Passed(texts[k]) || Continues(texts[k])
    ensures n !in Reported(Full, START, texts)
    ensures After(Full, START, texts[..n])
         == if Passed(texts[n - 1]) || Continues(texts[n - 1]) then st else st.(mode := Plain)
  {
    forall k | from <= k < n - 1 ensures Leads(Full, st, texts[k], st) {
      ContinuationGoesOn(st, texts[k]);
    }
    ContinuationGoesOn(st, texts[n - 1]);
    Swallowed(Full, START, texts, from, n, st,
              if Passed(texts[n - 1]) || Continues(texts[n - 1]) then st else st.(mode := Plain));
  }

  method ParseFileFull(lines: seq<string>) returns (found: seq<nat>)
    ensures found == Reported(Full, START, CleanedAll(lines))
  {
    ghost var texts := CleanedAll(lines);
    found := [];
    var st := START;
    for lineNo := 0 to |lines|
      invariant st == After(Full, START, texts[..lineNo]) && found == Reported(Full, START, texts[..lineNo])
    {
      OneMoreLine(Full, START, texts, lineNo);
      var code;
      st, code := Line(st, Cleaned(lines[lineNo]));
      if code {
        found := found + [lineNo + 1];
      }
    }
    assert texts[..|lines|] == texts;
  }

  /** The body of the loop. */
  method Line(start: State, s: string) returns (st: State, code: bool)
    ensures Verdict(st, code) == Full(start, s)
  {
    st, code := start, false;
    if Passed(s) {
      return;
    }
    if st.mode == Backslash {
      if s[|s| - 1] != '\\' {
        st := st.(mode := Plain);
      }
      return;
    }
    if st.mode == Quote {
      if Find(s, "\"") != |s| - 1 {
        return;
      }
      st := st.(mode := Plain);
    } else if st.mode == Heredoc {
      if Trim(s, " \t\r\n`") == st.marker {
        st := st.(mode := Plain);
      }
      return;
    }
    if Has(s, "$((") || Has(s, "$[") {
      st := st.(arithmetic := true);
    }
    if s[|s| - 1] == '\\' {
      st := st.(mode := Backslash);
    } else if OpensQuote(s) {
      st := st.(mode := Quote);
      return;
    } else if OpensDocument(st, s) {
      var at := Find(s, "<<");
      var marker := MarkerOf(s, at);
      st := st.(marker := marker);
      if marker != "" && marker[0] != '<' {
        st := st.(mode := Heredoc);
      }
      if Trim(s[..at], BLANKS) == "done" {
        return;
      }
    }
    if "case" <= s {
      st := st.(caseActive := true);
    } else if "esac" <= s {
      st := st.(caseActive := false);
    }
    if Has(s, "))") || Has(s, "]") {
      st := st.(arithmetic := false);
    }
    if st.arithmetic {
      return;
    }
    if st.caseActive && s[|s| - 1] == ')' {
      if !Has(s, "(") || Find(s, "(") == 0 {
        return;
      }
    }
    code := true;
  }
}
