/** Which lines of a script are reported, told by its text. */
module BashLines {
  // The state machine of the full parser is replaced by what can be read off the lines: a line is reported unless
  // characters of it, or of lines before it, say otherwise.

  import opened BashParser

  // ----- one line -----

  ghost predicate OccursAt(s: string, pat: string, i: nat) {
    i + |pat| <= |s| && s[i..i + |pat|] == pat
  }

  ghost predicate Occurs(s: string, pat: string) {
    exists i: nat :: OccursAt(s, pat, i)
  }

  ghost predicate FirstAt(s: string, pat: string, i: nat) {
    OccursAt(s, pat, i) && forall j: nat :: j < i ==> !OccursAt(s, pat, j)
  }

  /** Parentheses with nothing before them but one word and spaces. */
  ghost predicate NamesFunction(s: string) {
    exists at: nat, m: nat :: FirstAt(s, "()", at) && m <= at && IsWord(s, m, at)
  }

  ghost predicate IsWord(s: string, m: nat, at: nat)
    requires m <= at <= |s|
  {
    (m > 0 || at == 0) && (forall i :: 0 <= i < m ==> s[i] != ' ') && forall i :: m <= i < at ==> s[i] == ' '
  }

  predicate Bare(s: string) {
    || s == "" || s == "{" || s == "}" || s == "(" || s == ")"
    || s == "esac" || s == "fi" || s == "do" || s == "done" || s == "else" || s == "then"
  }

  /** Lines that count for nothing anywhere. */
  ghost predicate Skipped(s: string) {
    Bare(s) || ";;" <= s || "function" <= s || NamesFunction(s)
  }

  predicate Backslashed(s: string) {
    s != "" && s[|s| - 1] == '\\'
  }

  /** An assignment whose string does not end on the line. */
  ghost predicate OpensString(s: string) {
    && !Backslashed(s) && (Occurs(s, "=\"") || Occurs(s, "= \""))
    && exists i: nat :: OnlyQuoteAt(s, i)
  }

  ghost predicate OnlyQuoteAt(s: string, i: nat) {
    i < |s| && s[i] == '"' && forall j :: 0 <= j < |s| && s[j] == '"' ==> j == i
  }

  predicate ClosesString(s: string) {
    s != "" && s[|s| - 1] == '"' && '"' !in s[..|s| - 1]
  }

  ghost predicate OpensArithmetic(s: string) {
    Occurs(s, "$((") || Occurs(s, "$[")
  }

  ghost predicate ClosesArithmetic(s: string) {
    Occurs(s, "))") || Occurs(s, "]")
  }

  /** What ends the document the line may open. */
  function Marker(s: string): string {
    if Find(s, "<<") <= |s| then MarkerOf(s, Find(s, "<<")) else ""
  }

  predicate DoneBefore(s: string) {
    Find(s, "<<") <= |s| && Trim(s[..Find(s, "<<")], BLANKS) == "done"
  }

  predicate IsMarker(s: string, marker: string) {
    Trim(s, " \t\r\n`") == marker
  }

  // ----- what earlier lines opened -----

  /** The line is neither skipped nor inside of anything. */
  ghost predicate Live(texts: seq<string>, k: nat)
    requires k < |texts|
    decreases k, 5
  {
    !Skipped(texts[k]) && !IsSwallowed(texts, k)
  }

  ghost predicate IsSwallowed(texts: seq<string>, k: nat)
    requires k < |texts|
    decreases k, 4
  {
    InContinuation(texts, k) || (InString(texts, k) && !ClosesString(texts[k])) || InDocument(texts, k)
  }

  /** A line before ends in a backslash, and so do all between that are not skipped. */
  ghost predicate InContinuation(texts: seq<string>, k: nat)
    requires k <= |texts|
    decreases k, 3
  {
    exists j: nat :: j < k && Live(texts, j) && Backslashed(texts[j]) && ContinuedSince(texts, j, k)
  }

  ghost predicate ContinuedSince(texts: seq<string>, j: nat, k: nat)
    requires k <= |texts|
  {
    forall i :: j < i < k ==> Skipped(texts[i]) || Backslashed(texts[i])
  }

  /** A line before opens a string that no line between closes. */
  ghost predicate InString(texts: seq<string>, k: nat)
    requires k <= |texts|
    decreases k, 3
  {
    exists j: nat :: j < k && Live(texts, j) && OpensString(texts[j]) && UnclosedSince(texts, j, k)
  }

  ghost predicate UnclosedSince(texts: seq<string>, j: nat, k: nat)
    requires k <= |texts|
  {
    forall i :: j < i < k ==> Skipped(texts[i]) || !ClosesString(texts[i])
  }

  /** A line before opens a here document whose marker is on no line between. */
  ghost predicate InDocument(texts: seq<string>, k: nat)
    requires k <= |texts|
    decreases k, 3
  {
    exists j: nat :: j < k && OpensDocumentAt(texts, j) && UnmarkedSince(texts, j, k)
  }

  ghost predicate UnmarkedSince(texts: seq<string>, j: nat, k: nat)
    requires j < k <= |texts|
  {
    forall i :: j < i < k ==> Skipped(texts[i]) || !IsMarker(texts[i], Marker(texts[j]))
  }

  ghost predicate OpensDocumentAt(texts: seq<string>, k: nat)
    requires k < |texts|
    decreases k, 8
  {
    && Live(texts, k) && !Backslashed(texts[k]) && !OpensString(texts[k]) && LooksLikeDocument(texts, k)
    && Marker(texts[k]) != "" && Marker(texts[k])[0] != '<'
  }

  ghost predicate LooksLikeDocument(texts: seq<string>, k: nat)
    requires k < |texts|
    decreases k, 7
  {
    && !InArithmetic(texts, k) && !("let " <= texts[k]) && !Occurs(texts[k], "$((") && !Occurs(texts[k], "))")
    && Occurs(texts[k], "<<")
  }

  /** Arithmetic was opened here or before, and no line before closed it. */
  ghost predicate InArithmetic(texts: seq<string>, k: nat)
    requires k < |texts|
    decreases k, 6
  {
    ArithmeticBefore(texts, k) || (Live(texts, k) && OpensArithmetic(texts[k]))
  }

  ghost predicate ArithmeticBefore(texts: seq<string>, k: nat)
    requires k <= |texts|
    decreases k, 3
  {
    exists j: nat :: j < k && Live(texts, j) && OpensArithmetic(texts[j]) && forall i: nat :: j <= i < k ==> !Finishes(texts, i)
  }

  ghost predicate Finishes(texts: seq<string>, k: nat)
    requires k < |texts|
    decreases k, 9
  {
    Ended(texts, k) && ClosesArithmetic(texts[k])
  }

  /** The line opens no string and is no `done <<`. */
  ghost predicate Ended(texts: seq<string>, k: nat)
    requires k < |texts|
    decreases k, 8
  {
    && Live(texts, k) && !OpensString(texts[k])
    && !(LooksLikeDocument(texts, k) && DoneBefore(texts[k]) && !Backslashed(texts[k]))
  }

  /** The last line before, or this one, that started with case or esac started with case. */
  ghost predicate InCase(texts: seq<string>, k: nat)
    requires k <= |texts|
  {
    exists j: nat :: j < k && Ended(texts, j) && "case" <= texts[j] && NoEsacSince(texts, j, k)
  }

  ghost predicate NoEsacSince(texts: seq<string>, j: nat, k: nat)
    requires k <= |texts|
  {
    forall i: nat :: j < i < k ==> !(Ended(texts, i) && "esac" <= texts[i])
  }

  ghost predicate CaseSwitch(texts: seq<string>, k: nat)
    requires k < |texts|
  {
    && InCase(texts, k + 1) && texts[k] != "" && texts[k][|texts[k]| - 1] == ')'
    && (!Occurs(texts[k], "(") || texts[k][0] == '(')
  }

  ghost predicate IsCode(texts: seq<string>, k: nat)
    requires k < |texts|
  {
    Ended(texts, k) && (InArithmetic(texts, k) ==> ClosesArithmetic(texts[k])) && !CaseSwitch(texts, k)
  }

  // ----- the parser's tests on one line -----

  lemma HasIs(s: string, pat: string)
    ensures Has(s, pat) <==> Occurs(s, pat)
  {
    if i: nat :| OccursAt(s, pat, i) {
      assert At(s, pat, i);
    }
    if i :| 0 <= i <= |s| && At(s, pat, i) {
      assert OccursAt(s, pat, i);
    }
  }

  lemma {:induction false} FindFromIs(s: string, pat: string, from: nat)
    requires from <= |s| + 1 && forall j: nat :: j < from ==> !OccursAt(s, pat, j)
    ensures var i := FindFrom(s, pat, from);
            if i <= |s| then FirstAt(s, pat, i) else !Occurs(s, pat)
    decreases |s| + 1 - from
  {
    if from <= |s| && !At(s, pat, from) {
      FindFromIs(s, pat, from + 1);
    }
  }

  lemma FindIs(s: string, pat: string)
    ensures var i := Find(s, pat); if i <= |s| then FirstAt(s, pat, i) else !Occurs(s, pat)
  {
    FindFromIs(s, pat, 0);
  }

  lemma {:induction false} NameEndIs(s: string, at: nat)
    requires at <= |s|
    ensures var r := NameEnd(s, at);
            && (forall i :: r <= i < at ==> s[i] == ' ')
            && (r <= 1 || s[r - 1] != ' ') && (at > 0 ==> r > 0)
  {
    if at > 1 && s[at - 1] == ' ' {
      NameEndIs(s, at - 1);
    }
  }

  lemma NoSpaces(s: string)
    ensures Has(s, " ") <==> exists i :: 0 <= i < |s| && s[i] == ' '
  {
    if i :| 0 <= i <= |s| && At(s, " ", i) {
      assert s[i..i + 1][0] == ' ';
    }
    if i :| 0 <= i < |s| && s[i] == ' ' {
      assert At(s, " ", i);
    }
  }

  lemma DefinesIs(s: string)
    ensures DefinesFunction(s) <==> NamesFunction(s)
  {
    FindIs(s, "()");
    var at := Find(s, "()");
    if at <= |s| {
      var r := NameEnd(s, at);
      NameEndIs(s, at);
      NoSpaces(s[..r]);
      if DefinesFunction(s) {
        assert forall i :: 0 <= i < r ==> s[..r][i] != ' ';
        assert IsWord(s, r, at);
      }
      if m: nat :| m <= at && IsWord(s, m, at) {
        assert r <= m;
        assert forall i :: 0 <= i < r ==> s[..r][i] == s[i];
      }
    }
  }

  lemma PassedIs(s: string)
    ensures Passed(s) <==> Skipped(s)
  {
    DefinesIs(s);
    assert |s| >= 2 ==> (s[..2] == ";;" <==> ";;" <= s);
  }

  lemma {:induction false} NoQuotes(s: string)
    ensures Quotes(s) == 0 <==> forall j :: 0 <= j < |s| ==> s[j] != '"'
  {
    if s != [] {
      NoQuotes(s[..|s| - 1]);
    }
  }

  lemma {:induction false} QuotesAre(s: string)
    ensures Quotes(s) == 1 <==> exists i: nat :: OnlyQuoteAt(s, i)
  {
    if s != [] {
      var before := s[..|s| - 1];
      QuotesAre(before);
      NoQuotes(before);
      if s[|s| - 1] == '"' {
        assert Quotes(before) == 0 ==> OnlyQuoteAt(s, |s| - 1);
      } else {
        forall i: nat ensures OnlyQuoteAt(s, i) <==> OnlyQuoteAt(before, i) {
        }
      }
    }
  }

  lemma QuoteOpens(s: string)
    ensures !Backslashed(s) ==> (BashParser.OpensQuote(s) <==> OpensString(s))
  {
    HasIs(s, "=\"");
    HasIs(s, "= \"");
    QuotesAre(s);
  }

  lemma QuoteCloses(s: string)
    requires s != ""
    ensures Find(s, "\"") == |s| - 1 <==> ClosesString(s)
  {
    FindIs(s, "\"");
    var before := s[..|s| - 1];
    forall j | 0 <= j < |s| ensures OccursAt(s, "\"", j) <==> s[j] == '"' {
      assert s[j..j + 1] == [s[j]];
    }
    assert forall j :: 0 <= j < |before| ==> before[j] == s[j] && before[j] in before;
    if ClosesString(s) {
      assert OccursAt(s, "\"", |s| - 1);
    }
  }

  // ----- one more line -----

  lemma ContinuationGrows(texts: seq<string>, k: nat)
    requires k < |texts|
    ensures InContinuation(texts, k + 1)
            <==> || (Live(texts, k) && Backslashed(texts[k]))
                 || (InContinuation(texts, k) && (Skipped(texts[k]) || Backslashed(texts[k])))
  {
    if Live(texts, k) && Backslashed(texts[k]) {
      assert ContinuedSince(texts, k, k + 1);
    }
    forall j: nat | j < k
      ensures ContinuedSince(texts, j, k + 1) <==> ContinuedSince(texts, j, k) && (Skipped(texts[k]) || Backslashed(texts[k]))
    {
    }
  }

  lemma StringGrows(texts: seq<string>, k: nat)
    requires k < |texts|
    ensures InString(texts, k + 1)
            <==> || (Live(texts, k) && OpensString(texts[k]))
                 || (InString(texts, k) && (Skipped(texts[k]) || !ClosesString(texts[k])))
  {
    if Live(texts, k) && OpensString(texts[k]) {
      assert UnclosedSince(texts, k, k + 1);
    }
    forall j: nat | j < k
      ensures UnclosedSince(texts, j, k + 1) <==> UnclosedSince(texts, j, k) && (Skipped(texts[k]) || !ClosesString(texts[k]))
    {
    }
  }

  /** The document of line j is still open before line k. */
  ghost predicate OpenSince(texts: seq<string>, j: nat, k: nat)
    requires k <= |texts|
  {
    j < k && OpensDocumentAt(texts, j) && UnmarkedSince(texts, j, k)
  }

  ghost predicate AnyOpen(texts: seq<string>, k: nat)
    requires k <= |texts|
  {
    exists j: nat :: OpenSince(texts, j, k)
  }

  ghost predicate MarkersAre(texts: seq<string>, k: nat, marker: string)
    requires k <= |texts|
  {
    forall j: nat :: OpenSince(texts, j, k) ==> Marker(texts[j]) == marker
  }

  lemma DocumentGrows(texts: seq<string>, j: nat, k: nat)
    requires k < |texts|
    ensures OpenSince(texts, j, k + 1)
            <==> || (j == k && OpensDocumentAt(texts, k))
                 || (OpenSince(texts, j, k) && (Skipped(texts[k]) || !IsMarker(texts[k], Marker(texts[j]))))
  {
  }

  lemma ArithmeticGrows(texts: seq<string>, k: nat)
    requires k < |texts|
    ensures ArithmeticBefore(texts, k + 1) <==> InArithmetic(texts, k) && !Finishes(texts, k)
  {
    if ArithmeticBefore(texts, k) && !Finishes(texts, k) {
      var j: nat :| j < k && Live(texts, j) && OpensArithmetic(texts[j]) && forall i: nat :: j <= i < k ==> !Finishes(texts, i);
      assert forall i: nat :: j <= i < k + 1 ==> !Finishes(texts, i);
    }
    if Live(texts, k) && OpensArithmetic(texts[k]) && !Finishes(texts, k) {
      assert forall i: nat :: k <= i < k + 1 ==> !Finishes(texts, i);
    }
    if ArithmeticBefore(texts, k + 1) {
      var j: nat :| j < k + 1 && Live(texts, j) && OpensArithmetic(texts[j]) && forall i: nat :: j <= i < k + 1 ==> !Finishes(texts, i);
      assert !Finishes(texts, k);
      assert j < k ==> forall i: nat :: j <= i < k ==> !Finishes(texts, i);
    }
  }

  lemma CaseGrows(texts: seq<string>, k: nat, n: nat)
    requires k < |texts| && n == k + 1
    ensures InCase(texts, n)
            <==> (Ended(texts, k) && "case" <= texts[k]) || (InCase(texts, k) && !(Ended(texts, k) && "esac" <= texts[k]))
  {
    if Ended(texts, k) && "case" <= texts[k] {
      assert NoEsacSince(texts, k, n);
      assert texts[k][0] == 'c';
    }
    forall j: nat | j < k
      ensures NoEsacSince(texts, j, n) <==> NoEsacSince(texts, j, k) && !(Ended(texts, k) && "esac" <= texts[k])
    {
    }
  }

  // ----- the state of the parser -----

  ghost predicate ModeOk(texts: seq<string>, k: nat, st: State)
    requires k <= |texts|
  {
    && (st.mode.Backslash? <==> InContinuation(texts, k)) && (st.mode.Quote? <==> InString(texts, k))
    && (st.mode.Heredoc? <==> AnyOpen(texts, k)) && (st.mode.Heredoc? ==> MarkersAre(texts, k, st.marker))
  }

  ghost predicate StateOk(texts: seq<string>, k: nat, st: State)
    requires k <= |texts|
  {
    ModeOk(texts, k, st) && (st.arithmetic <==> ArithmeticBefore(texts, k)) && (st.caseActive <==> InCase(texts, k))
  }

  lemma DocumentIs(texts: seq<string>, k: nat)
    requires k <= |texts|
    ensures InDocument(texts, k) <==> AnyOpen(texts, k)
  {
    if InDocument(texts, k) {
      var j: nat :| j < k && OpensDocumentAt(texts, j) && UnmarkedSince(texts, j, k);
      assert OpenSince(texts, j, k);
    }
  }

  lemma LiveIsRead(texts: seq<string>, k: nat, st: State)
    requires k < |texts| && ModeOk(texts, k, st)
    ensures Live(texts, k)
            <==> !Passed(texts[k]) && (st.mode.Plain? || (st.mode.Quote? && Find(texts[k], "\"") == |texts[k]| - 1))
    ensures Live(texts, k) ==> Full(st, texts[k]) == BashParser.Read(st.(mode := Plain), texts[k])
  {
    PassedIs(texts[k]);
    DocumentIs(texts, k);
    if texts[k] != "" {
      QuoteCloses(texts[k]);
    }
  }

  lemma DeadTurn(texts: seq<string>, k: nat, st: State)
    requires k < |texts| && ModeOk(texts, k, st) && !Live(texts, k)
    ensures var s, v := texts[k], Full(st, texts[k]);
            && !v.code && v.state.arithmetic == st.arithmetic && v.state.caseActive == st.caseActive && v.state.marker == st.marker
            && (v.state.mode.Backslash? <==> st.mode.Backslash? && (Skipped(s) || Backslashed(s)))
            && (v.state.mode.Quote? <==> st.mode.Quote? && (Skipped(s) || !ClosesString(s)))
            && (v.state.mode.Heredoc? <==> st.mode.Heredoc? && (Skipped(s) || !IsMarker(s, st.marker)))
  {
    LiveIsRead(texts, k, st);
    PassedIs(texts[k]);
    if texts[k] != "" {
      QuoteCloses(texts[k]);
    }
  }

  lemma TestsAre(s: string)
    requires s != ""
    ensures (Has(s, "$((") || Has(s, "$[")) <==> OpensArithmetic(s)
    ensures (Has(s, "))") || Has(s, "]")) <==> ClosesArithmetic(s)
    ensures (Has(s, "<<") <==> Occurs(s, "<<")) && (Has(s, "$((") <==> Occurs(s, "$((")) && (Has(s, "))") <==> Occurs(s, "))"))
    ensures Has(s, "<<") <==> Find(s, "<<") <= |s|
    ensures (Find(s, "(") == 0 || !Has(s, "(")) <==> (!Occurs(s, "(") || s[0] == '(')
  {
    HasIs(s, "$((");
    HasIs(s, "$[");
    HasIs(s, "))");
    HasIs(s, "]");
    HasIs(s, "<<");
    HasIs(s, "(");
    FindIs(s, "<<");
    FindIs(s, "(");
    assert s[0..1] == [s[0]];
    assert OccursAt(s, "(", 0) <==> s[0] == '(';
  }

  /** What a live line does to the mode. */
  function ModeAfter(backslashed: bool, opensString: bool, opensDocument: bool): Mode {
    if backslashed then Backslash else if opensString then Quote else if opensDocument then Heredoc else Plain
  }

  lemma ReadIs(st: State, s: string, arithmetic: bool, document: bool)
    requires s != "" && st.mode == Plain
    requires arithmetic == (st.arithmetic || OpensArithmetic(s))
    requires document == (!arithmetic && !("let " <= s) && !Occurs(s, "$((") && !Occurs(s, "))") && Occurs(s, "<<"))
    ensures var v := BashParser.Read(st, s);
            var opens := !Backslashed(s) && !OpensString(s) && document && Marker(s) != "" && Marker(s)[0] != '<';
            var ended := !OpensString(s) && !(document && DoneBefore(s) && !Backslashed(s));
            && v.state.mode == ModeAfter(Backslashed(s), OpensString(s), opens)
            && (opens ==> v.state.marker == Marker(s))
            && v.state.arithmetic == (arithmetic && !(ended && ClosesArithmetic(s)))
            && v.state.caseActive == (if ended && "case" <= s then true else if ended && "esac" <= s then false else st.caseActive)
            && (v.code <==>
                  && ended && (arithmetic ==> ClosesArithmetic(s))
                  && !(v.state.caseActive && s[|s| - 1] == ')' && (!Occurs(s, "(") || s[0] == '(')))
  {
    TestsAre(s);
    QuoteOpens(s);
  }

  lemma LiveMode(texts: seq<string>, k: nat, st: State)
    requires k < |texts| && StateOk(texts, k, st) && Live(texts, k)
    ensures var s, v := texts[k], Full(st, texts[k]);
            && v.state.mode == ModeAfter(Backslashed(s), OpensString(s), OpensDocumentAt(texts, k))
            && (OpensDocumentAt(texts, k) ==> v.state.marker == Marker(s))
  {
    LiveIsRead(texts, k, st);
    ReadIs(st.(mode := Plain), texts[k], InArithmetic(texts, k), LooksLikeDocument(texts, k));
  }

  lemma LiveCode(texts: seq<string>, k: nat, st: State)
    requires k < |texts| && StateOk(texts, k, st) && Live(texts, k)
    ensures var s, v := texts[k], Full(st, texts[k]);
            && v.state.arithmetic == (InArithmetic(texts, k) && !Finishes(texts, k))
            && v.state.caseActive == (if Ended(texts, k) && "case" <= s then true
                                      else if Ended(texts, k) && "esac" <= s then false else st.caseActive)
            && (v.code <==>
                  && Ended(texts, k) && (InArithmetic(texts, k) ==> ClosesArithmetic(s))
                  && !(v.state.caseActive && s[|s| - 1] == ')' && (!Occurs(s, "(") || s[0] == '(')))
  {
    LiveIsRead(texts, k, st);
    ReadIs(st.(mode := Plain), texts[k], InArithmetic(texts, k), LooksLikeDocument(texts, k));
  }

  lemma LiveTurn(texts: seq<string>, k: nat, st: State)
    requires k < |texts| && StateOk(texts, k, st) && Live(texts, k)
    ensures var v := Full(st, texts[k]);
            && v.state.arithmetic == (InArithmetic(texts, k) && !Finishes(texts, k))
            && v.state.caseActive == InCase(texts, k + 1) && v.code == IsCode(texts, k)
  {
    LiveCode(texts, k, st);
    CaseGrows(texts, k, k + 1);
    assert "case" <= texts[k] ==> texts[k][0] == 'c';
  }

  lemma OnlyThis(texts: seq<string>, j: nat, k: nat)
    requires k < |texts| && Live(texts, k) && OpenSince(texts, j, k + 1)
    ensures j == k && OpensDocumentAt(texts, k)
  {
    DocumentGrows(texts, j, k);
    DocumentIs(texts, k);
    assert OpenSince(texts, j, k) ==> AnyOpen(texts, k);
  }

  /** The line opens a document, there being none open. */
  lemma NewlyOpen(texts: seq<string>, k: nat, n: nat)
    requires k < |texts| && n == k + 1 && OpensDocumentAt(texts, k)
    ensures AnyOpen(texts, n) && MarkersAre(texts, n, Marker(texts[k]))
  {
    assert OpenSince(texts, k, n);
    forall j: nat | OpenSince(texts, j, n) ensures Marker(texts[j]) == Marker(texts[k]) {
      OnlyThis(texts, j, k);
    }
  }

  lemma NoneOpen(texts: seq<string>, k: nat, n: nat)
    requires k < |texts| && n == k + 1 && Live(texts, k) && !OpensDocumentAt(texts, k)
    ensures !AnyOpen(texts, n)
  {
    if j: nat :| OpenSince(texts, j, n) {
      OnlyThis(texts, j, k);
    }
  }

  lemma StillOpen(texts: seq<string>, k: nat, n: nat, marker: string)
    requires k < |texts| && n == k + 1 && !Live(texts, k) && (AnyOpen(texts, k) ==> MarkersAre(texts, k, marker))
    ensures AnyOpen(texts, n) <==> AnyOpen(texts, k) && (Skipped(texts[k]) || !IsMarker(texts[k], marker))
    ensures AnyOpen(texts, n) ==> MarkersAre(texts, n, marker)
  {
    forall j: nat
      ensures OpenSince(texts, j, n)
              <==> OpenSince(texts, j, k) && (Skipped(texts[k]) || !IsMarker(texts[k], Marker(texts[j])))
    {
      DocumentGrows(texts, j, k);
    }
    if AnyOpen(texts, k) && (Skipped(texts[k]) || !IsMarker(texts[k], marker)) {
      var j: nat :| OpenSince(texts, j, k);
      assert OpenSince(texts, j, n);
    }
  }

  lemma LiveOpens(texts: seq<string>, k: nat, n: nat)
    requires k < |texts| && n == k + 1 && Live(texts, k)
    ensures InContinuation(texts, n) <==> Backslashed(texts[k])
    ensures InString(texts, n) <==> OpensString(texts[k])
  {
    NotInside(texts, k);
    ContinuationGrows(texts, k);
    StringGrows(texts, k);
  }

  lemma ModeFrom(texts: seq<string>, n: nat, st: State, backslashed: bool, opensString: bool, opensDocument: bool)
    requires n <= |texts| && st.mode == ModeAfter(backslashed, opensString, opensDocument)
    requires !(backslashed && opensString) && !(opensDocument && (backslashed || opensString))
    requires (InContinuation(texts, n) <==> backslashed) && (InString(texts, n) <==> opensString)
    requires (AnyOpen(texts, n) <==> opensDocument) && (opensDocument ==> MarkersAre(texts, n, st.marker))
    ensures ModeOk(texts, n, st)
  {
  }

  lemma OpensOne(texts: seq<string>, k: nat)
    requires k < |texts|
    ensures !(Backslashed(texts[k]) && OpensString(texts[k]))
    ensures !(OpensDocumentAt(texts, k) && (Backslashed(texts[k]) || OpensString(texts[k])))
  {
  }

  lemma LiveStep(texts: seq<string>, k: nat, n: nat, next: State)
    requires k < |texts| && n == k + 1 && Live(texts, k)
    requires next.mode == ModeAfter(Backslashed(texts[k]), OpensString(texts[k]), OpensDocumentAt(texts, k))
    requires OpensDocumentAt(texts, k) ==> next.marker == Marker(texts[k])
    ensures ModeOk(texts, n, next)
  {
    LiveOpens(texts, k, n);
    OpensOne(texts, k);
    if OpensDocumentAt(texts, k) {
      NewlyOpen(texts, k, n);
      ModeFrom(texts, n, next, false, false, true);
    } else {
      NoneOpen(texts, k, n);
      ModeFrom(texts, n, next, Backslashed(texts[k]), OpensString(texts[k]), false);
    }
  }

  lemma NotInside(texts: seq<string>, k: nat)
    requires k < |texts| && Live(texts, k)
    ensures !InContinuation(texts, k) && (InString(texts, k) ==> ClosesString(texts[k])) && !Skipped(texts[k])
  {
  }

  lemma DeadStep(texts: seq<string>, k: nat, st: State)
    requires k < |texts| && StateOk(texts, k, st) && !Live(texts, k)
    ensures ModeOk(texts, k + 1, Full(st, texts[k]).state)
  {
    DeadTurn(texts, k, st);
    ContinuationGrows(texts, k);
    StringGrows(texts, k);
    StillOpen(texts, k, k + 1, st.marker);
  }

  lemma NotEnded(texts: seq<string>, k: nat)
    requires k < |texts| && !Live(texts, k)
    ensures !IsCode(texts, k) && !Finishes(texts, k) && (InArithmetic(texts, k) <==> ArithmeticBefore(texts, k))
    ensures InCase(texts, k + 1) <==> InCase(texts, k)
  {
    CaseGrows(texts, k, k + 1);
  }

  lemma StateStep(texts: seq<string>, k: nat, st: State)
    requires k < |texts| && StateOk(texts, k, st)
    ensures StateOk(texts, k + 1, Full(st, texts[k]).state) && Full(st, texts[k]).code == IsCode(texts, k)
  {
    ArithmeticGrows(texts, k);
    if Live(texts, k) {
      LiveMode(texts, k, st);
      LiveStep(texts, k, k + 1, Full(st, texts[k]).state);
      LiveTurn(texts, k, st);
    } else {
      DeadStep(texts, k, st);
      DeadTurn(texts, k, st);
      NotEnded(texts, k);
    }
  }

  lemma StartsOk(texts: seq<string>)
    ensures StateOk(texts, 0, START)
  {
  }

  lemma {:induction false} StateIs(texts: seq<string>, k: nat)
    requires k <= |texts|
    ensures StateOk(texts, k, After(Full, START, texts[..k]))
  {
    if k == 0 {
      StartsOk(texts);
    } else {
      StateIs(texts, k - 1);
      StateStep(texts, k - 1, After(Full, START, texts[..k - 1]));
      OneMoreLine(Full, START, texts, k - 1);
    }
  }

  /** A line is reported exactly if its text and that of the lines before it make it code: it is not skipped, not inside
      a continued line, a string or a document, opens no string, is no `done <<`, has no arithmetic left open, and is
      no case switch. */
  lemma ReportedIffCode(texts: seq<string>, n: nat)
    ensures n in Reported(Full, START, texts) <==> 1 <= n <= |texts| && IsCode(texts, n - 1)
  {
    ReportedAre(Full, START, texts, n);
    if 1 <= n <= |texts| {
      StateIs(texts, n - 1);
      StateStep(texts, n - 1, After(Full, START, texts[..n - 1]));
    }
  }
}
