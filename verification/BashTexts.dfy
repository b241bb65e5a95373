/** Scripts as both parsers see them. */
module BashTexts {
  // What is left of a line once blanks and comments are gone, what the basic parser reports, and when the full one does
  // not report it too.

  import opened BashParser
  import opened BashLines

  // ----- both parsers -----

  lemma BasicIs(s: string)
    ensures BasicCode(s) <==> !Bare(s) && !("function" <= s)
  {
  }

  /** The basic parser reports every line but these. */
  lemma BasicReports(texts: seq<string>, n: nat)
    ensures n in Reported(Basic, false, texts) <==> 1 <= n <= |texts| && !Bare(texts[n - 1]) && !("function" <= texts[n - 1])
  {
    ReportedAre(Basic, false, texts, n);
    if 1 <= n <= |texts| {
      BasicIs(texts[n - 1]);
    }
  }

  /** A line of code that is not inside anything but still is not reported. */
  ghost predicate Excepted(texts: seq<string>, k: nat)
    requires k < |texts|
  {
    || OpensString(texts[k])
    || (LooksLikeDocument(texts, k) && DoneBefore(texts[k]) && !Backslashed(texts[k]))
    || (InArithmetic(texts, k) && !ClosesArithmetic(texts[k])) || CaseSwitch(texts, k)
  }

  lemma CodeIs(texts: seq<string>, k: nat)
    requires k < |texts|
    ensures IsCode(texts, k) <==> !Skipped(texts[k]) && !IsSwallowed(texts, k) && !Excepted(texts, k)
  {
    assert Live(texts, k) <==> !Skipped(texts[k]) && !IsSwallowed(texts, k);
    assert Ended(texts, k) <==> Live(texts, k) && !OpensString(texts[k])
                                && !(LooksLikeDocument(texts, k) && DoneBefore(texts[k]) && !Backslashed(texts[k]));
  }

  /** What the basic parser reports the full one reports too, unless the line starts with ;; or defines a function, is
      swallowed by what an earlier line opened, opens a string, is `done <<`, has arithmetic left open or is a case
      switch. */
  lemma BasicIsReportedUnless(texts: seq<string>, n: nat)
    requires n in Reported(Basic, false, texts)
    ensures 1 <= n <= |texts|
    ensures n in Reported(Full, START, texts)
            <==> !(";;" <= texts[n - 1] || NamesFunction(texts[n - 1]) || IsSwallowed(texts, n - 1) || Excepted(texts, n - 1))
  {
    BasicReports(texts, n);
    ReportedIffCode(texts, n);
    CodeIs(texts, n - 1);
  }

  // ----- blanks, comments and markers -----

  lemma {:induction false} EndIs(s: string, chars: string)
    ensures var r := TrimmedEnd(s, chars);
            && r <= s && (forall i :: |r| <= i < |s| ==> s[i] in chars) && (r != "" ==> r[|r| - 1] !in chars)
  {
    if s != [] && s[|s| - 1] in chars {
      EndIs(s[..|s| - 1], chars);
    }
  }

  lemma {:induction false} StartIs(s: string)
    ensures var r := TrimmedStart(s); var a := |s| - |r|;
            && s[a..] == r && (forall i :: 0 <= i < a ==> s[i] in " \t") && (r != "" ==> r[0] !in " \t")
  {
    if s != [] && s[0] in " \t" {
      StartIs(s[1..]);
      assert forall i :: 0 < i < |s| ==> s[i] == s[1..][i - 1];
    }
  }

  lemma EndKeeps(s: string, chars: string, i: nat)
    requires i < |s| && s[i] !in chars
    ensures |TrimmedEnd(s, chars)| > i
  {
    EndIs(s, chars);
  }

  lemma StartKeeps(s: string, b: nat)
    requires b < |s| && s[b] !in " \t" && forall i :: 0 <= i < b ==> s[i] in " \t"
    ensures TrimmedStart(s) == s[b..]
  {
    StartIs(s);
    var r := TrimmedStart(s);
    assert |s| - |r| <= b;
    assert r[0] == s[|s| - |r|];
  }

  /** trim_string: what is left stands between blanks. A text of nothing but such characters keeps its end. */
  lemma TrimIs(s: string, chars: string) returns (a: nat, b: nat)
    requires ' ' in chars && '\t' in chars
    ensures a <= b <= |s| && Trim(s, chars) == s[a..b]
    ensures (forall i :: 0 <= i < a ==> s[i] in " \t") && (a < b ==> s[a] !in " \t")
    ensures if exists i :: 0 <= i < |s| && s[i] !in chars then
              a < b && s[b - 1] !in chars && forall i :: b <= i < |s| ==> s[i] in chars
            else b == |s|
  {
    var t := if TrimmedEnd(s, chars) == [] then s else TrimmedEnd(s, chars);
    EndIs(s, chars);
    StartIs(t);
    b := |t|;
    a := |t| - |TrimmedStart(t)|;
    assert t == s[..b] && t[a..] == s[a..b];
    if i :| 0 <= i < |s| && s[i] !in chars {
      EndKeeps(s, chars, i);
      assert s[b - 1] == t[b - 1];
    }
  }

  /** Trimming a text that starts, after blanks, at b. */
  lemma TrimFrom(s: string, b: nat, i: nat)
    requires b <= i < |s| && s[i] !in BLANKS && s[b] !in " \t" && forall j :: 0 <= j < b ==> s[j] in " \t"
    ensures var r := Trim(s, BLANKS);
            && |r| > i - b && r <= s[b..] && r[|r| - 1] !in BLANKS
            && (forall k :: b + |r| <= k < |s| ==> s[k] in BLANKS)
  {
    var t := TrimmedEnd(s, BLANKS);
    EndIs(s, BLANKS);
    EndKeeps(s, BLANKS, i);
    assert t == s[..|t|];
    StartKeeps(t, b);
    assert t[b..] == s[b..|t|];
  }

  lemma HashFirst(s: string, at: nat)
    requires at < |s| && s[at] == '#' && forall i :: 0 <= i < at ==> s[i] != '#'
    ensures Find(s, "#") == at
  {
    FindIs(s, "#");
    assert s[at..at + 1] == "#";
    assert OccursAt(s, "#", at);
    forall j: nat | j < at ensures !OccursAt(s, "#", j) {
      assert s[j..j + 1] == [s[j]];
    }
  }

  lemma TrimmedAlready(s: string)
    requires s != "" && s[0] !in " \t" && s[|s| - 1] !in BLANKS
    ensures Trim(s, BLANKS) == s
  {
    StartKeeps(s, 0);
    assert s[0..] == s;
  }

  /** What stands before a # that is neither quoted nor part of a variable is kept as it is, and nothing else. */
  lemma CodeIsKept(blanks: string, code: string, rest: string)
    requires forall i :: 0 <= i < |blanks| ==> blanks[i] in " \t"
    requires code != "" ==> code[0] !in " \t"
    requires forall i :: 0 <= i < |code| ==> code[i] !in "#$\"'"
    ensures Cleaned(blanks + code + "#" + rest) == code
  {
    var raw := blanks + code + "#" + rest;
    var b, h := |blanks|, |blanks| + |code|;
    assert raw[h] == '#' && raw[b] == (code + "#" + rest)[0] && raw[b..] == code + "#" + rest;
    TrimFrom(raw, b, h);
    var s := Trim(raw, BLANKS);
    assert s == (code + "#" + rest)[..|s|];
    assert s[..|code|] == code && s[|code|] == '#';
    HashFirst(s, |code|);
    TrimmedAlready(s);
    NotInCode(s, |code|);
  }

  lemma NotInCode(s: string, at: nat)
    requires at < |s| && s[at] == '#' && forall i :: 0 <= i < at ==> s[i] !in "$\"'"
    ensures !HashInCode(s, at)
  {
    assert forall i :: 0 <= i <= at ==> s[i] != '$';
    forall i | 0 <= i <= at ensures !At(s, "${", i) {
      assert i + 2 <= |s| ==> s[i..i + 2][0] == s[i];
    }
  }

  /** A # behind a $, inside ${ and }, or behind a quotation mark is no comment, and the line is kept. */
  lemma HashStays(raw: string, at: nat)
    requires var s := Trim(raw, BLANKS); at < |s| && s[at] == '#' && '#' !in s[..at]
    requires var s := Trim(raw, BLANKS);
             || (at >= 1 && s[at - 1] == '$')
             || (at >= 2 && (exists i: nat :: i <= at && OccursAt(s, "${", i)) && exists i: nat :: at <= i && OccursAt(s, "}", i))
             || '"' in s[..at] || '\'' in s[..at]
    ensures Cleaned(raw) == Trim(raw, BLANKS)
  {
    var s := Trim(raw, BLANKS);
    assert forall i :: 0 <= i < at ==> s[..at][i] == s[i] && s[i] in s[..at];
    HashFirst(s, at);
    if i: nat :| i <= at && OccursAt(s, "${", i) {
      assert At(s, "${", i);
    }
    if i: nat :| at <= i && OccursAt(s, "}", i) {
      assert At(s, "}", i);
    }
  }

  lemma EmptyIsNotCode(texts: seq<string>, n: nat)
    requires 1 <= n <= |texts| && texts[n - 1] == ""
    ensures n !in Reported(Full, START, texts) && n !in Reported(Basic, false, texts)
  {
    ReportedAre(Full, START, texts, n);
    ReportedAre(Basic, false, texts, n);
  }

  /** Neither parser ever reports a line of nothing but blanks and a comment. */
  lemma CommentsAreNotReported(lines: seq<string>, n: nat, blanks: string, rest: string)
    requires 1 <= n <= |lines| && lines[n - 1] == blanks + "#" + rest
    requires forall i :: 0 <= i < |blanks| ==> blanks[i] in " \t"
    ensures n !in Reported(Full, START, CleanedAll(lines)) && n !in Reported(Basic, false, CleanedAll(lines))
  {
    assert blanks + "" + "#" + rest == lines[n - 1];
    CodeIsKept(blanks, "", rest);
    EmptyIsNotCode(CleanedAll(lines), n);
  }

  lemma {:induction false} WordEnds(word: string, tail: string)
    requires (forall i :: 0 <= i < |word| ==> word[i] != ' ' && word[i] != '\t') && (tail == "" || tail[0] in " \t")
    ensures FirstWord(word + tail) == word
  {
    if word == "" {
      assert word + tail == tail;
    } else {
      WordEnds(word[1..], tail);
      assert (word + tail)[1..] == word[1..] + tail;
    }
  }

  lemma DashGone(dash: string, after: string)
    requires after != "" && (dash == "-" || (dash == "" && after[0] != '-'))
    ensures var rest := dash + after; (if rest != [] && rest[0] == '-' then rest[1..] else rest) == after
  {
  }

  lemma FirstWordIs(blanks: string, word: string, tail: string)
    requires forall i :: 0 <= i < |blanks| ==> blanks[i] in " \t"
    requires word != "" && (forall i :: 0 <= i < |word| ==> word[i] !in BLANKS) && (tail == "" || tail[0] in " \t")
    ensures FirstWord(Trim(blanks + word + tail, BLANKS)) == word
  {
    var after := blanks + word + tail;
    var last := |blanks| + |word| - 1;
    assert after[last] == word[|word| - 1] && after[|blanks|] == word[0];
    TrimFrom(after, |blanks|, last);
    var r := Trim(after, BLANKS);
    assert after[|blanks|..] == word + tail && r == (word + tail)[..|r|];
    assert r == word + r[|word|..];
    assert r[|word|..] == "" || r[|word|..][0] == tail[0];
    WordEnds(word, r[|word|..]);
  }

  lemma MarkerOfRest(s: string, at: nat, dash: string, after: string)
    requires FirstAt(s, "<<", at) && s[at + 2..] == dash + after
    requires after != "" && (dash == "-" || (dash == "" && after[0] != '-'))
    ensures Marker(s) == Unquoted(FirstWord(Trim(after, BLANKS)))
  {
    FindIs(s, "<<");
    DashGone(dash, after);
  }

  lemma Regrouped(before: string, dash: string, blanks: string, word: string, tail: string)
    ensures (before + "<<" + dash + blanks + word + tail)[|before| + 2..] == dash + (blanks + word + tail)
  {
    assert before + "<<" + dash + blanks + word + tail == (before + "<<") + (dash + (blanks + word + tail));
  }

  /** The marker is the word after <<, without the dash before it and the quotes around it. */
  lemma MarkerIs(before: string, dash: string, blanks: string, word: string, tail: string)
    requires FirstAt(before + "<<" + dash + blanks + word + tail, "<<", |before|)
    requires word != "" && (dash == "-" || (dash == "" && (blanks + word)[0] != '-'))
    requires forall i :: 0 <= i < |blanks| ==> blanks[i] in " \t"
    requires (forall i :: 0 <= i < |word| ==> word[i] !in BLANKS) && (tail == "" || tail[0] in " \t")
    ensures Marker(before + "<<" + dash + blanks + word + tail)
            == if |word| > 2 && (word[0] == '"' || word[0] == '\'') && word[0] == word[|word| - 1] then word[1..|word| - 1] else word
  {
    Regrouped(before, dash, blanks, word, tail);
    assert (blanks + word + tail)[0] == (blanks + word)[0];
    MarkerOfRest(before + "<<" + dash + blanks + word + tail, |before|, dash, blanks + word + tail);
    FirstWordIs(blanks, word, tail);
  }
}
