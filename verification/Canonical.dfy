/** Text as lines: strings.Split and strings.Join on "\n", and trailing blanks. */
module LineText {
  import opened Text

  predicate IsNewline(c: char) { c == '\n' }

  predicate IsPad(c: char) { c == ' ' || c == '\t' }

  /** strings.Split(s, "\n"): one line more than there are newlines. */
  function Lines(s: string): (ls: seq<string>)
    ensures |ls| > 0
  {
    if s == [] then [[]]
    else
      var init, c := Lines(s[..|s| - 1]), s[|s| - 1];
      if c == '\n' then init + [[]] else init[|init| - 1 := init[|init| - 1] + [c]]
  }

  function Join(ls: seq<string>): string {
    if ls == [] then [] else if |ls| == 1 then ls[0] else Join(ls[..|ls| - 1]) + "\n" + ls[|ls| - 1]
  }

  predicate OneLine(s: string) { forall i :: 0 <= i < |s| ==> s[i] != '\n' }

  predicate AreLines(ls: seq<string>) {
    |ls| > 0 && forall i :: 0 <= i < |ls| ==> OneLine(ls[i])
  }

  lemma JoinLast(ls: seq<string>, line: string)
    requires |ls| > 0
    ensures Join(ls + [line]) == Join(ls) + "\n" + line
  {
    assert (ls + [line])[..|ls|] == ls;
  }

  lemma JoinExtend(ls: seq<string>, c: char)
    requires |ls| > 0
    ensures Join(ls[|ls| - 1 := ls[|ls| - 1] + [c]]) == Join(ls) + [c]
  {
    var head, last := ls[..|ls| - 1], ls[|ls| - 1];
    assert ls == head + [last] && ls[|ls| - 1 := last + [c]] == head + [last + [c]];
    if head != [] {
      JoinLast(head, last);
      JoinLast(head, last + [c]);
      assert (Join(head) + "\n" + last) + [c] == Join(head) + "\n" + (last + [c]);
    }
  }

  lemma {:induction false} JoinOfLines(s: string)
    ensures AreLines(Lines(s)) && Join(Lines(s)) == s
  {
    if s != [] {
      var t, c := s[..|s| - 1], s[|s| - 1];
      JoinOfLines(t);
      assert s == t + [c];
      if c == '\n' {
        JoinLast(Lines(t), []);
      } else {
        JoinExtend(Lines(t), c);
      }
    }
  }

  lemma LinesSnoc(s: string, c: char)
    ensures Lines(s + [c]) ==
            if c == '\n' then Lines(s) + [[]] else Lines(s)[|Lines(s)| - 1 := Lines(s)[|Lines(s)| - 1] + [c]]
  {
    assert (s + [c])[..|s|] == s;
  }

  /** The lines with t added to the last one. */
  function Extended(ls: seq<string>, t: string): seq<string>
    requires |ls| > 0
  {
    ls[|ls| - 1 := ls[|ls| - 1] + t]
  }

  lemma ExtendedTwice(ls: seq<string>, t: string, c: char)
    requires |ls| > 0
    ensures Extended(Extended(ls, t), [c]) == Extended(ls, t + [c])
  {
    assert (ls[|ls| - 1] + t) + [c] == ls[|ls| - 1] + (t + [c]);
  }

  /** Appending text without newlines extends the last line. */
  lemma {:induction false} LinesAppend(s: string, t: string)
    requires OneLine(t)
    ensures Lines(s + t) == Extended(Lines(s), t)
    decreases |t|
  {
    if t == [] {
      assert s + t == s && Lines(s)[|Lines(s)| - 1] + t == Lines(s)[|Lines(s)| - 1];
    } else {
      var u, c := t[..|t| - 1], t[|t| - 1];
      LinesAppend(s, u);
      assert t == u + [c] && s + t == (s + u) + [c];
      LinesSnoc(s + u, c);
      ExtendedTwice(Lines(s), u, c);
    }
  }

  lemma LinesOfOne(line: string)
    requires OneLine(line)
    ensures Lines(line) == [line]
  {
    LinesAppend([], line);
    assert [] + line == line;
  }

  lemma LinesWithLast(s: string, last: string)
    requires OneLine(last)
    ensures Lines(s + "\n" + last) == Lines(s) + [last]
  {
    LinesSnoc(s, '\n');
    var base: seq<string>, empty: string := Lines(s) + [[]], [];
    assert Lines(s + ['\n']) == base && base[|base| - 1] == empty;
    LinesAppend(s + ['\n'], last);
    assert empty + last == last && base[|base| - 1 := last] == Lines(s) + [last];
    assert s + "\n" == s + ['\n'];
  }

  lemma {:induction false} LinesOfJoin(ls: seq<string>)
    requires AreLines(ls)
    ensures Lines(Join(ls)) == ls
    decreases |ls|
  {
    var init, last := ls[..|ls| - 1], ls[|ls| - 1];
    if |ls| == 1 {
      LinesOfOne(last);
    } else {
      LinesOfJoin(init);
      LinesWithLast(Join(init), last);
      assert init + [last] == ls;
    }
  }

  /** The first line is empty exactly when the text is empty or starts with a newline. */
  lemma {:induction false} FirstLine(s: string)
    ensures Lines(s)[0] == [] <==> s == [] || s[0] == '\n'
    ensures Lines(s)[0] != [] ==> Lines(s)[0][0] == s[0]
  {
    if s != [] {
      FirstLine(s[..|s| - 1]);
    }
  }

  // ---- Trailing blanks ----

  function Strip(line: string): string { TrimRight(IsPad, line) }

  function StripAll(ls: seq<string>): seq<string> {
    seq(|ls|, i requires 0 <= i < |ls| => Strip(ls[i]))
  }

  function DropBlank(ls: seq<string>): seq<string> {
    if |ls| > 1 && ls[|ls| - 1] == [] then DropBlank(ls[..|ls| - 1]) else ls
  }

  lemma StripFacts(line: string)
    ensures Strip(Strip(line)) == Strip(line) && |Strip(line)| <= |line|
    ensures OneLine(line) ==> OneLine(Strip(line))
    ensures Strip(line) == [] <==> All(IsPad, line)
  {
    var n := TrimRightSplits(IsPad, line);
    if n > 0 {
      assert Strip(line)[n - 1] == line[n - 1];
    } else {
      assert line[0..] == line;
    }
  }

  /** Stripping takes the spaces and tabs at the end of a line, all of them, and nothing else. */
  lemma StripMeaning(line: string) returns (pads: string)
    ensures line == Strip(line) + pads && forall i :: 0 <= i < |pads| ==> pads[i] == ' ' || pads[i] == '\t'
    ensures Strip(line) != "" ==> Strip(line)[|Strip(line)| - 1] != ' ' && Strip(line)[|Strip(line)| - 1] != '\t'
  {
    var n := TrimRightSplits(IsPad, line);
    pads := line[n..];
    assert line == line[..n] + line[n..];
  }

  lemma {:induction false} TrimNewlines(ls: seq<string>)
    requires AreLines(ls)
    ensures TrimRight(IsNewline, Join(ls)) == Join(DropBlank(ls))
    decreases |ls|
  {
    var init, last := ls[..|ls| - 1], ls[|ls| - 1];
    if |ls| == 1 {
      if last != [] { assert last[|last| - 1] != '\n'; }
    } else {
      var s := Join(init) + "\n";
      assert Join(ls) == s + last;
      if last == [] {
        TrimNewlines(init);
        assert s + last == s && s[..|s| - 1] == Join(init);
      } else {
        assert (s + last)[|s + last| - 1] == last[|last| - 1];
      }
    }
  }

  lemma {:induction false} DropBlankFacts(ls: seq<string>)
    requires |ls| > 0
    ensures var d := DropBlank(ls);
            && 0 < |d| <= |ls| && d == ls[..|d|] && (|d| == 1 || d[|d| - 1] != [])
            && (forall i :: |d| <= i < |ls| ==> ls[i] == [])
            && DropBlank(d) == d && DropBlank(d + [[]]) == d
    decreases |ls|
  {
    var d := DropBlank(ls);
    if |ls| > 1 && ls[|ls| - 1] == [] {
      DropBlankFacts(ls[..|ls| - 1]);
    } else {
      assert ls[..|ls|] == ls;
    }
    assert (d + [[]])[..|d|] == d;
  }

  /** Line i of a text, blank beyond its end. */
  function LineAt(ls: seq<string>, i: nat): string {
    if i < |ls| then ls[i] else []
  }

  lemma LineThatDiffers(c: seq<string>, d: seq<string>) returns (i: nat)
    requires |c| > 0 && |d| > 0 && c != d
    requires (|c| == 1 || c[|c| - 1] != []) && (|d| == 1 || d[|d| - 1] != [])
    ensures LineAt(c, i) != LineAt(d, i)
  {
    if |c| > |d| {
      i := |c| - 1;
    } else if |d| > |c| {
      i := |d| - 1;
    } else {
      i :| 0 <= i < |c| && c[i] != d[i];
    }
  }

  /** Dropping trailing blank lines forgets nothing else: equal results mean equal lines throughout. */
  lemma DropBlankExactly(a: seq<string>, b: seq<string>)
    requires |a| > 0 && |b| > 0
    ensures DropBlank(a) == DropBlank(b) <==> forall i: nat :: LineAt(a, i) == LineAt(b, i)
  {
    DropBlankFacts(a);
    DropBlankFacts(b);
    var c, d := DropBlank(a), DropBlank(b);
    assert forall i: nat :: LineAt(a, i) == LineAt(c, i) && LineAt(b, i) == LineAt(d, i);
    if c != d {
      var i := LineThatDiffers(c, d);
      assert LineAt(a, i) != LineAt(b, i);
    }
  }
}

/** The canonical form behind content identity (internal/canonicalize/canonicalize.go). */
module Canonical {
  import opened Options
  import opened Text
  import opened LineText

  // ---- Line endings ----

  function ReplaceCrLf(s: string): string {
    if s == [] then []
    else if |s| > 1 && s[0] == '\r' && s[1] == '\n' then ['\n'] + ReplaceCrLf(s[2..])
    else [s[0]] + ReplaceCrLf(s[1..])
  }

  function ReplaceCr(s: string): string {
    seq(|s|, i requires 0 <= i < |s| => if s[i] == '\r' then '\n' else s[i])
  }

  function Normalize(s: string): string { ReplaceCr(ReplaceCrLf(s)) }

  predicate NoCr(s: string) { forall i :: 0 <= i < |s| ==> s[i] != '\r' }

  lemma {:induction false} NoCrIsFixed(s: string)
    requires NoCr(s)
    ensures ReplaceCrLf(s) == s && Normalize(s) == s
  {
    if s != [] {
      assert forall i :: 0 <= i < |s[1..]| ==> s[1..][i] == s[i + 1];
      NoCrIsFixed(s[1..]);
      assert [s[0]] + s[1..] == s;
    }
    assert ReplaceCr(s) == s;
  }

  lemma NormalizeHasNoCr(s: string)
    ensures NoCr(Normalize(s))
  {
  }

  function WithCrLf(s: string): string {
    if s == [] then [] else (if s[0] == '\n' then "\r\n" else [s[0]]) + WithCrLf(s[1..])
  }

  lemma {:induction false} CrLfUndone(s: string)
    requires NoCr(s)
    ensures ReplaceCrLf(WithCrLf(s)) == s
  {
    if s != [] {
      assert forall i :: 0 <= i < |s[1..]| ==> s[1..][i] == s[i + 1];
      CrLfUndone(s[1..]);
      var rest := WithCrLf(s[1..]);
      assert [s[0]] + s[1..] == s;
      if s[0] == '\n' {
        assert ("\r\n" + rest)[2..] == rest && WithCrLf(s) == "\r\n" + rest;
      } else {
        assert ([s[0]] + rest)[1..] == rest && WithCrLf(s) == [s[0]] + rest;
      }
    }
  }

  function WithCr(s: string): string {
    seq(|s|, i requires 0 <= i < |s| => if s[i] == '\n' then '\r' else s[i])
  }

  lemma {:induction false} NoLfIsFixed(s: string)
    requires OneLine(s)
    ensures ReplaceCrLf(s) == s
  {
    if s != [] {
      assert forall i :: 0 <= i < |s[1..]| ==> s[1..][i] == s[i + 1];
      NoLfIsFixed(s[1..]);
      assert [s[0]] + s[1..] == s;
    }
  }

  /** A text saved with DOS or old Mac line endings normalises to the Unix text. */
  lemma LineEndingsForgotten(s: string)
    requires NoCr(s)
    ensures Normalize(WithCrLf(s)) == s && Normalize(WithCr(s)) == s
  {
    CrLfUndone(s);
    NoCrIsFixed(s);
    NoLfIsFixed(WithCr(s));
    assert ReplaceCr(WithCr(s)) == s;
  }

  // ---- Frontmatter ----

  const OPENER: string := "---\n"
  const CLOSER: string := "\n---\n"
  const CLOSER_EOF: string := "\n---"

  predicate At(s: string, i: nat, w: string) {
    i + |w| <= |s| && s[i..i + |w|] == w
  }

  /** bytes.Index. */
  function IndexFrom(s: string, i: nat, w: string): Option<nat>
    decreases |s| - i
  {
    if At(s, i, w) then Some(i) else if i >= |s| then None else IndexFrom(s, i + 1, w)
  }

  datatype Doc = Doc(fm: Option<string>, body: string)

  function Split(raw: string): Doc {
    if At(raw, 0, OPENER) then SplitRest(raw, raw[4..]) else Doc(None, raw)
  }

  function SplitRest(raw: string, rest: string): Doc {
    var at := IndexFrom(rest, 0, CLOSER);
    if at.Some? && at.value + 5 <= |rest| then Doc(Some(rest[..at.value]), rest[at.value + 5..])
    else if |rest| >= 4 && rest[|rest| - 4..] == CLOSER_EOF then Doc(Some(rest[..|rest| - 4]), [])
    else Doc(None, raw)
  }

  lemma {:induction false} IndexMeaning(s: string, i: nat, w: string)
    ensures var k := IndexFrom(s, i, w);
            && (k.Some? ==> i <= k.value && At(s, k.value, w) && forall j :: i <= j < k.value ==> !At(s, j, w))
            && (k.None? ==> forall j :: i <= j <= |s| ==> !At(s, j, w))
    decreases |s| - i
  {
    if !At(s, i, w) && i < |s| { IndexMeaning(s, i + 1, w); }
  }

  /** No closing line begins before position n. */
  predicate NoCloser(s: string, n: nat) { forall j :: 0 <= j < n ==> !At(s, j, "\n---\n") }

  predicate ClosedByLine(raw: string, fm: string, body: string) {
    raw == "---\n" + fm + "\n---\n" + body && NoCloser(raw[4..], |fm|)
  }

  predicate ClosedByEnd(raw: string, fm: string, body: string) {
    raw == "---\n" + fm + "\n---" && body == [] && NoCloser(raw[4..], |raw|)
  }

  predicate NotClosed(raw: string) {
    At(raw, 0, "---\n") ==> NoCloser(raw[4..], |raw|) && !("\n---" <= Tail(raw[4..]))
  }

  lemma CutAtLine(raw: string, rest: string, k: nat)
    requires raw == OPENER + rest && At(rest, k, CLOSER) && NoCloser(rest, k)
    ensures ClosedByLine(raw, rest[..k], rest[k + 5..])
  {
    assert rest == rest[..k] + CLOSER + rest[k + 5..];
    assert raw == OPENER + rest[..k] + CLOSER + rest[k + 5..];
    assert raw[4..] == rest;
  }

  lemma CutAtEnd(raw: string, rest: string)
    requires raw == OPENER + rest && |rest| >= 4 && rest[|rest| - 4..] == CLOSER_EOF && NoCloser(rest, |raw|)
    ensures ClosedByEnd(raw, rest[..|rest| - 4], [])
  {
    assert rest == rest[..|rest| - 4] + CLOSER_EOF;
    assert raw == OPENER + rest[..|rest| - 4] + CLOSER_EOF;
    assert raw[4..] == rest;
  }

  /** What a split says of the text it was given. */
  predicate SplitOk(raw: string, doc: Doc) {
    if doc.fm.None? then doc.body == raw && NotClosed(raw)
    else ClosedByLine(raw, doc.fm.value, doc.body) || ClosedByEnd(raw, doc.fm.value, doc.body)
  }

  lemma NeverCloses(raw: string, rest: string)
    requires raw == OPENER + rest && NoCloser(rest, |rest| + 1)
    ensures NoCloser(rest, |raw|)
  {
    forall j | |rest| < j < |raw| ensures !At(rest, j, CLOSER) { }
  }

  lemma NotClosedAtAll(raw: string, rest: string)
    requires raw == OPENER + rest && NoCloser(rest, |raw|)
    requires !(|rest| >= 4 && rest[|rest| - 4..] == CLOSER_EOF)
    ensures NotClosed(raw)
  {
    assert raw[4..] == rest;
  }

  lemma SplitRestOk(raw: string, rest: string)
    requires raw == OPENER + rest
    ensures SplitOk(raw, SplitRest(raw, rest))
  {
    IndexMeaning(rest, 0, CLOSER);
    var at := IndexFrom(rest, 0, CLOSER);
    if at.Some? {
      CutAtLine(raw, rest, at.value);
    } else {
      NeverCloses(raw, rest);
      if |rest| >= 4 && rest[|rest| - 4..] == CLOSER_EOF {
        CutAtEnd(raw, rest);
      } else {
        NotClosedAtAll(raw, rest);
      }
    }
  }

  /**
   Splitting loses nothing but the fences: a block starts at the first byte and ends at the first
   closing line, or else at a closing line without a newline that ends the text; otherwise the whole
   text is body.
   */
  lemma SplitMeaning(raw: string)
    ensures SplitOk(raw, Split(raw))
  {
    if At(raw, 0, OPENER) {
      assert raw == OPENER + raw[4..];
      SplitRestOk(raw, raw[4..]);
    }
  }

  /** The last four characters. */
  function Tail(s: string): string { if |s| < 4 then s else s[|s| - 4..] }

  // ---- The body ----

  /** The lines that remain: stripped, without trailing blank ones. */
  function BodyLines(body: string): seq<string> {
    DropBlank(StripAll(Lines(body)))
  }

  function Body(body: string): string {
    TrimRight(IsNewline, Join(StripAll(Lines(body)))) + "\n"
  }

  lemma StrippedLines(body: string)
    ensures AreLines(StripAll(Lines(body))) && AreLines(BodyLines(body))
    ensures forall i :: 0 <= i < |BodyLines(body)| ==> Strip(BodyLines(body)[i]) == BodyLines(body)[i]
    ensures BodyLines(body)[0] == Strip(Lines(body)[0])
  {
    var ls := Lines(body);
    var stripped := StripAll(ls);
    JoinOfLines(body);
    forall i | 0 <= i < |ls| ensures OneLine(stripped[i]) && Strip(stripped[i]) == stripped[i] {
      StripFacts(ls[i]);
    }
    DropBlankFacts(stripped);
  }

  lemma BodyIsJoined(body: string)
    ensures Body(body) == Join(BodyLines(body)) + "\n"
    ensures Lines(Body(body)) == BodyLines(body) + [[]]
  {
    StrippedLines(body);
    TrimNewlines(StripAll(Lines(body)));
    LinesOfJoin(BodyLines(body));
    LinesSnoc(Join(BodyLines(body)), '\n');
    assert Join(BodyLines(body)) + "\n" == Join(BodyLines(body)) + ['\n'];
  }

  /** A body is its own canonical body once it is one. */
  lemma BodyTwice(body: string)
    ensures Body(Body(body)) == Body(body)
  {
    BodyIsJoined(body);
    StrippedLines(body);
    var ls := BodyLines(body);
    var again := StripAll(ls + [[]]);
    assert Strip([]) == [];
    assert again == ls + [[]];
    DropBlankFacts(StripAll(Lines(body)));
    BodyIsJoined(Body(body));
  }

  /** Two bodies agree line by line, up to spaces and tabs at line ends and blank lines at the end. */
  ghost predicate SameLines(a: string, b: string) {
    forall i: nat :: Strip(LineAt(Lines(a), i)) == Strip(LineAt(Lines(b), i))
  }

  /**
   Two bodies have the same canonical form exactly when, line by line, they agree up to trailing
   spaces and tabs, with blank lines standing for the lines a shorter one lacks.
   */
  lemma SameBodyExactly(a: string, b: string)
    ensures Body(a) == Body(b) <==> SameLines(a, b)
  {
    BodyIsJoined(a);
    BodyIsJoined(b);
    var la, lb := StripAll(Lines(a)), StripAll(Lines(b));
    assert Strip([]) == [];
    assert forall i: nat :: LineAt(la, i) == Strip(LineAt(Lines(a), i)) && LineAt(lb, i) == Strip(LineAt(Lines(b), i));
    DropBlankExactly(la, lb);
    if Body(a) == Body(b) {
      var ba, bb := BodyLines(a), BodyLines(b);
      assert ba == (ba + [[]])[..|ba|] && bb == (bb + [[]])[..|bb|];
    }
  }

  lemma {:induction false} StripPads(line: string, pads: string)
    requires forall i :: 0 <= i < |pads| ==> pads[i] == ' ' || pads[i] == '\t'
    ensures Strip(line + pads) == Strip(line)
    decreases |pads|
  {
    if pads == [] {
      assert line + pads == line;
    } else {
      var init := pads[..|pads| - 1];
      assert (line + pads)[..|line + pads| - 1] == line + init;
      StripPads(line, init);
    }
  }

  /** Spaces and tabs at the end of a body change nothing. */
  lemma PadsIgnored(s: string, pads: string)
    requires forall i :: 0 <= i < |pads| ==> pads[i] == ' ' || pads[i] == '\t'
    ensures Body(s + pads) == Body(s)
  {
    var ls := Lines(s);
    var k := |ls| - 1;
    LinesAppend(s, pads);
    StripPads(ls[k], pads);
    assert StripAll(Lines(s + pads)) == StripAll(ls);
  }

  /** canonicalizeBody: the lines are stripped in place. */
  method CanonicalizeBody(body: string) returns (joined: string)
    ensures joined == Body(body)
  {
    var ls := Lines(body);
    var lines := new string[|ls|](i requires 0 <= i < |ls| => ls[i]);
    var i := 0;
    while i < lines.Length
      invariant 0 <= i <= lines.Length
      invariant forall k :: 0 <= k < i ==> lines[k] == Strip(ls[k])
      invariant forall k :: i <= k < lines.Length ==> lines[k] == ls[k]
    {
      lines[i] := TrimRight(IsPad, lines[i]);
      i := i + 1;
    }
    assert lines[..] == StripAll(ls);
    joined := TrimRight(IsNewline, Join(lines[..])) + "\n";
  }

  // ---- Documents ----

  function TrimmedBody(raw: string): string { TrimLeft(IsNewline, Split(Normalize(raw)).body) }

  /** The text SumBody hashes. */
  function BodyForm(raw: string): string { Body(TrimmedBody(raw)) }

  function BodyPart(trimmed: string): string { if trimmed == "" then "" else Body(trimmed) }

  /** `yaml` parses, sorts and re-renders a frontmatter block, or fails. */
  function Canonicalize(yaml: string -> Option<string>, raw: string): Option<string> {
    var doc := Split(Normalize(raw));
    var part := BodyPart(TrimLeft(IsNewline, doc.body));
    if doc.fm.None? then Some(part)
    else
      var sorted := yaml(doc.fm.value);
      if sorted.None? then None else Some("---\n" + sorted.value + "---\n" + part)
  }

  /**
   Re-rendered YAML ends in a newline, holds no carriage return and no closing delimiter line, and
   renders to itself.
   */
  ghost predicate YamlLaw(yaml: string -> Option<string>) {
    forall fm :: yaml(fm).Some? ==> Rendered(yaml, yaml(fm).value)
  }

  ghost predicate Rendered(yaml: string -> Option<string>, y: string) {
    && |y| > 0 && y[|y| - 1] == '\n' && NoCr(y)
    && (forall i :: 0 <= i < |y| - 1 ==> !At(y + "---\n", i, CLOSER))
    && yaml(y[..|y| - 1]) == Some(y)
  }

  lemma {:induction false} IndexIs(s: string, i: nat, w: string, k: nat)
    requires i <= k && At(s, k, w) && forall j :: i <= j < k ==> !At(s, j, w)
    ensures IndexFrom(s, i, w) == Some(k)
    decreases k - i
  {
    if i < k { IndexIs(s, i + 1, w, k); }
  }

  lemma PrefixAt(y: string, rest: string, i: nat)
    requires |y| > 0 && y[|y| - 1] == '\n' && i < |y| - 1
    ensures At((y + "---\n") + rest, i, CLOSER) <==> At(y + "---\n", i, CLOSER)
  {
    var a := y + "---\n";
    assert i + 5 <= |a|;
    assert (a + rest)[i..i + 5] == a[i..i + 5];
  }

  /** Splitting a canonical document with frontmatter gives its two parts back. */
  lemma SplitCanonical(yaml: string -> Option<string>, y: string, rest: string)
    requires Rendered(yaml, y)
    ensures Split("---\n" + y + "---\n" + rest) == Doc(Some(y[..|y| - 1]), rest)
  {
    var raw := "---\n" + y + "---\n" + rest;
    var tail := (y + "---\n") + rest;
    assert raw == "---\n" + tail;
    assert raw[0..4] == OPENER && raw[4..] == tail;
    var k := |y| - 1;
    assert tail[k..k + 5] == CLOSER;
    forall j | 0 <= j < k ensures !At(tail, j, CLOSER) {
      PrefixAt(y, rest, j);
    }
    IndexIs(tail, 0, CLOSER, k);
    assert tail[k + 5..] == rest && tail[..k] == y[..k];
  }

  lemma NoCrParts(s: string)
    requires NoCr(s)
    ensures NoCr(BodyPart(s))
  {
    var ls := Lines(s);
    JoinOfLines(s);
    LinesNoCr(s);
    var n := TrimRightSplits(IsNewline, Join(StripAll(ls)));
    forall i | 0 <= i < |ls| ensures NoCr(Strip(ls[i])) {
      var m := TrimRightSplits(IsPad, ls[i]);
    }
    JoinNoCr(StripAll(ls));
  }

  lemma {:induction false} LinesNoCr(s: string)
    requires NoCr(s)
    ensures forall i :: 0 <= i < |Lines(s)| ==> NoCr(Lines(s)[i])
  {
    if s != [] { LinesNoCr(s[..|s| - 1]); }
  }

  lemma {:induction false} JoinNoCr(ls: seq<string>)
    requires forall i :: 0 <= i < |ls| ==> NoCr(ls[i])
    ensures NoCr(Join(ls))
  {
    if |ls| > 1 { JoinNoCr(ls[..|ls| - 1]); }
  }

  /** The trimmed body opens with a line that is empty or only spaces and tabs. */
  predicate OpensBlank(trimmed: string) {
    trimmed != "" && All(IsPad, Lines(trimmed)[0])
  }

  lemma BodyShrinks(b: string)
    requires b != [] && b[|b| - 1] == '\n'
    ensures |Body(b)| <= |b|
  {
    var ls := Lines(b);
    var init := b[..|b| - 1];
    assert b == init + ['\n'];
    LinesSnoc(init, '\n');
    var head := StripAll(Lines(init));
    assert Strip([]) == [];
    assert StripAll(ls) == head + [[]];
    JoinLast(head, []);
    JoinOfLines(init);
    StripShortens(Lines(init));
    var joined := Join(StripAll(ls));
    assert joined == Join(head) + ['\n'];
    assert joined[..|joined| - 1] == Join(head);
    var n := TrimRightSplits(IsNewline, Join(head));
    assert TrimRight(IsNewline, joined) == TrimRight(IsNewline, Join(head));
  }

  lemma {:induction false} StripShortens(ls: seq<string>)
    ensures |Join(StripAll(ls))| <= |Join(ls)|
    decreases |ls|
  {
    if ls != [] {
      StripFacts(ls[|ls| - 1]);
      if |ls| > 1 {
        StripShortens(ls[..|ls| - 1]);
        assert StripAll(ls)[..|ls| - 1] == StripAll(ls[..|ls| - 1]);
      }
    }
  }

  /** Applying the body step to its own output: stable exactly when the body does not open blank. */
  lemma BodyPartTwiceExactly(trimmed: string)
    requires trimmed != "" ==> trimmed[0] != '\n'
    ensures var part := BodyPart(trimmed);
            BodyPart(TrimLeft(IsNewline, part)) == part <==> !OpensBlank(trimmed)
  {
    var part := BodyPart(trimmed);
    if trimmed != "" {
      BodyIsJoined(trimmed);
      StrippedLines(trimmed);
      StripFacts(Lines(trimmed)[0]);
      FirstLine(part);
      assert Lines(part)[0] == BodyLines(trimmed)[0];
      if OpensBlank(trimmed) {
        assert part[0] == '\n';
        var n := TrimLeftSplits(IsNewline, part);
        var rest := TrimLeft(IsNewline, part);
        assert n > 0;
        if rest != "" { BodyShrinks(rest); }
        assert |BodyPart(rest)| < |part|;
      } else {
        assert part[0] != '\n' && TrimLeft(IsNewline, part) == part;
        BodyTwice(trimmed);
      }
    }
  }

  lemma TrimmedFacts(raw: string)
    ensures NoCr(TrimmedBody(raw)) && (TrimmedBody(raw) != "" ==> TrimmedBody(raw)[0] != '\n')
  {
    var s := Normalize(raw);
    NormalizeHasNoCr(raw);
    var doc := Split(s);
    assert NoCr(doc.body);
    var n := TrimLeftSplits(IsNewline, doc.body);
  }

  lemma FencedHasNoCr(y: string, part: string)
    requires NoCr(y) && NoCr(part)
    ensures NoCr("---\n" + y + "---\n" + part)
  {
  }

  lemma SecondFenced(yaml: string -> Option<string>, y: string, part: string, out: string)
    requires Rendered(yaml, y) && NoCr(part) && out == "---\n" + y + "---\n" + part
    ensures Canonicalize(yaml, out) == Some(out) <==> BodyPart(TrimLeft(IsNewline, part)) == part
  {
    FencedHasNoCr(y, part);
    NoCrIsFixed(out);
    SplitCanonical(yaml, y, part);
    SameFenced(yaml, y, BodyPart(TrimLeft(IsNewline, part)), y, part);
  }

  /** The output read again, when it has frontmatter or is not newly read as having some. */
  lemma SecondPass(yaml: string -> Option<string>, raw: string, out: string)
    requires YamlLaw(yaml) && Canonicalize(yaml, raw) == Some(out)
    requires Split(Normalize(raw)).fm.Some? || Split(out).fm.None?
    ensures var part := BodyPart(TrimmedBody(raw));
            Canonicalize(yaml, out) == Some(out) <==> BodyPart(TrimLeft(IsNewline, part)) == part
  {
    TrimmedFacts(raw);
    NoCrParts(TrimmedBody(raw));
    var doc, part := Split(Normalize(raw)), BodyPart(TrimmedBody(raw));
    if doc.fm.Some? {
      SecondFenced(yaml, yaml(doc.fm.value).value, part, out);
    } else {
      NoCrIsFixed(out);
    }
  }

  // ---- A body that the second pass reads as frontmatter ----

  const FENCE: string := "---"

  function NextFence(ls: seq<string>, i: nat): (j: nat)
    requires i <= |ls|
    ensures i <= j <= |ls| && (j < |ls| ==> ls[j] == FENCE) && forall k :: i <= k < j ==> ls[k] != FENCE
    decreases |ls| - i
  {
    if i == |ls| || ls[i] == FENCE then i else NextFence(ls, i + 1)
  }

  /** The first line is a fence and a line after the second closes it. */
  predicate Fences(ls: seq<string>) {
    |ls| > 2 && ls[0] == FENCE && NextFence(ls, 2) < |ls|
  }

  function FencedBlock(ls: seq<string>): string
    requires Fences(ls)
  {
    Join(ls[1..NextFence(ls, 2)])
  }

  function AfterFence(ls: seq<string>): seq<string>
    requires Fences(ls)
  {
    ls[NextFence(ls, 2) + 1..]
  }

  /** Lines as text, each ended by a newline. */
  function Ended(ls: seq<string>): string { if ls == [] then [] else Join(ls) + "\n" }

  lemma {:induction false} JoinConcat(a: seq<string>, b: seq<string>)
    requires a != [] && b != []
    ensures Join(a + b) == Join(a) + "\n" + Join(b)
    decreases |b|
  {
    var init, last := b[..|b| - 1], b[|b| - 1];
    assert b == init + [last];
    if init == [] {
      JoinLast(a, last);
    } else {
      JoinConcat(a, init);
      JoinLast(a + init, last);
      assert a + b == (a + init) + [last];
      assert (Join(a) + "\n" + Join(init)) + "\n" + last == Join(a) + "\n" + (Join(init) + "\n" + last);
    }
  }

  lemma LinesConcat(s: string, t: string)
    ensures Lines(s + "\n" + t) == Lines(s) + Lines(t)
  {
    JoinOfLines(s);
    JoinOfLines(t);
    JoinConcat(Lines(s), Lines(t));
    LinesOfJoin(Lines(s) + Lines(t));
  }

  lemma EndedConcat(a: seq<string>, b: seq<string>)
    ensures Ended(a + b) == Ended(a) + Ended(b)
  {
    if a == [] {
      assert a + b == b && Ended(a) + Ended(b) == Ended(b);
    } else if b == [] {
      assert a + b == a && Ended(a) + Ended(b) == Ended(a);
    } else {
      JoinConcat(a, b);
      assert (Join(a) + "\n" + Join(b)) + "\n" == (Join(a) + "\n") + (Join(b) + "\n");
    }
  }

  lemma Regroup(block: string, after: string)
    ensures (block + "\n") + (OPENER + after) == block + CLOSER + after
  {
    assert "\n" + OPENER == CLOSER;
    assert (block + "\n") + (OPENER + after) == block + ("\n" + OPENER) + after;
  }

  lemma CutLines(ls: seq<string>, j: nat)
    requires 2 <= j < |ls| && ls[0] == FENCE && ls[j] == FENCE
    ensures ls == [FENCE] + (ls[1..j] + ([FENCE] + ls[j + 1..]))
  {
    assert ls == [ls[0]] + (ls[1..j] + ([ls[j]] + ls[j + 1..]));
  }

  /** Lines cut at a fence: the text is fence, block, fence, rest. */
  lemma CutText(ls: seq<string>, j: nat)
    requires 2 <= j < |ls| && ls[0] == FENCE && ls[j] == FENCE
    ensures Ended(ls) == OPENER + (Join(ls[1..j]) + CLOSER + Ended(ls[j + 1..]))
  {
    var block, after := ls[1..j], ls[j + 1..];
    CutLines(ls, j);
    EndedConcat([FENCE], block + ([FENCE] + after));
    EndedConcat(block, [FENCE] + after);
    EndedConcat([FENCE], after);
    FenceText();
    Regroup(Join(block), Ended(after));
  }

  lemma FenceText()
    ensures Ended([FENCE]) == OPENER
  {
  }

  lemma CloserAt(rest: string, block: string, after: string)
    requires rest == block + CLOSER + after
    ensures At(rest, |block|, CLOSER)
  {
    assert rest[|block|..|block| + 5] == CLOSER;
  }

  lemma FenceShows(ls: seq<string>, j: nat)
    requires 2 <= j < |ls| && ls[0] == FENCE && ls[j] == FENCE
    ensures At(Ended(ls), 0, OPENER) && At(Ended(ls)[4..], |Join(ls[1..j])|, CLOSER)
  {
    CutText(ls, j);
    var rest := Join(ls[1..j]) + CLOSER + Ended(ls[j + 1..]);
    CloserAt(rest, Join(ls[1..j]), Ended(ls[j + 1..]));
    assert Ended(ls)[4..] == rest && Ended(ls)[0..4] == OPENER;
  }

  lemma FenceFound(ls: seq<string>, j: nat)
    requires 2 <= j < |ls| && ls[0] == FENCE && ls[j] == FENCE
    ensures Split(Ended(ls)).fm.Some?
  {
    FenceShows(ls, j);
    IndexMeaning(Ended(ls)[4..], 0, CLOSER);
  }

  lemma FoundIsFirst(ls: seq<string>, fm: string, body: string)
    requires AreLines(ls) && ClosedByLine(Ended(ls), fm, body)
    ensures Fences(ls) && fm == FencedBlock(ls) && body == Ended(AfterFence(ls))
  {
    var j := ClosingLine(ls, fm, body);
    FirstCloses(ls, j, fm, body);
  }

  /** A text of whole lines splits at its first closing fence line, and not at all without one. */
  lemma SplitOfLines(ls: seq<string>)
    requires AreLines(ls)
    ensures Split(Ended(ls)) ==
            if Fences(ls) then Doc(Some(FencedBlock(ls)), Ended(AfterFence(ls))) else Doc(None, Ended(ls))
  {
    var doc := Split(Ended(ls));
    SplitMeaning(Ended(ls));
    if Fences(ls) { FenceFound(ls, NextFence(ls, 2)); }
    if doc.fm.Some? {
      NotClosedByEnd(ls, doc.fm.value, doc.body);
      FoundIsFirst(ls, doc.fm.value, doc.body);
    }
  }

  lemma TextOfFence()
    ensures Lines(FENCE) == [FENCE]
  {
    LinesAppend([], FENCE);
    assert [] + FENCE == FENCE;
  }

  lemma LinesOfCut(fm: string, body: string)
    ensures Lines(OPENER + fm + CLOSER + body) == [FENCE] + (Lines(fm) + ([FENCE] + Lines(body)))
  {
    var tail := FENCE + "\n" + body;
    TextOfFence();
    LinesConcat(FENCE, fm + "\n" + tail);
    LinesConcat(fm, tail);
    LinesConcat(FENCE, body);
    assert OPENER + fm + CLOSER + body == FENCE + "\n" + (fm + "\n" + tail);
  }

  lemma LinesOfEnded(ls: seq<string>)
    requires AreLines(ls)
    ensures Lines(Ended(ls)) == ls + [[]]
  {
    LinesOfJoin(ls);
    LinesSnoc(Join(ls), '\n');
  }

  lemma EndedOfLines(body: string, ls: seq<string>)
    requires Lines(body) == ls + [[]]
    ensures body == Ended(ls)
  {
    JoinOfLines(body);
    if ls != [] { JoinLast(ls, []); }
  }

  lemma NotClosedByEnd(ls: seq<string>, fm: string, body: string)
    requires ls != []
    ensures !ClosedByEnd(Ended(ls), fm, body)
  {
    var out := Ended(ls);
    assert out[|out| - 1] == '\n';
    var t := OPENER + fm + CLOSER_EOF;
    assert t[|t| - 1] == CLOSER_EOF[3];
  }

  /** The closing line that a split found. */
  lemma ClosingLine(ls: seq<string>, fm: string, body: string) returns (j: nat)
    requires AreLines(ls) && ClosedByLine(Ended(ls), fm, body)
    ensures 2 <= j < |ls| && ls[0] == FENCE && ls[j] == FENCE && fm == Join(ls[1..j]) && body == Ended(ls[j + 1..])
  {
    LinesOfCut(fm, body);
    LinesOfEnded(ls);
    j := |Lines(fm)| + 1;
    LinesMatch(ls, Lines(fm), Lines(body));
    JoinOfLines(fm);
    EndedOfLines(body, ls[j + 1..]);
  }

  lemma LinesMatch(ls: seq<string>, f: seq<string>, b: seq<string>)
    requires f != [] && b != [] && ls + [[]] == [FENCE] + (f + ([FENCE] + b))
    ensures var j := |f| + 1;
            j < |ls| && ls[0] == FENCE && ls[j] == FENCE && ls[1..j] == f && b == ls[j + 1..] + [[]]
  {
    var j, all := |f| + 1, ls + [[]];
    assert all[0] == FENCE && all[j] == FENCE && all[1..j] == f && all[j + 1..] == b;
    assert all[1..j] == ls[1..j] && all[j + 1..] == ls[j + 1..] + [[]];
  }

  lemma EarlierCloser(ls: seq<string>, i: nat, j: nat)
    requires 2 <= i < j < |ls|
    ensures |Join(ls[1..i])| < |Join(ls[1..j])|
  {
    assert ls[1..j] == ls[1..i] + ls[i..j];
    JoinConcat(ls[1..i], ls[i..j]);
  }

  lemma FirstCloses(ls: seq<string>, j: nat, fm: string, body: string)
    requires 2 <= j < |ls| && ls[0] == FENCE && ls[j] == FENCE && fm == Join(ls[1..j])
    requires ClosedByLine(Ended(ls), fm, body)
    ensures NextFence(ls, 2) == j
  {
    var i := NextFence(ls, 2);
    if i < j {
      FenceShows(ls, i);
      EarlierCloser(ls, i, j);
    }
  }

  /** Trailing blank lines neither open nor close a fence. */
  lemma FencesWithoutBlanks(ls: seq<string>, d: seq<string>)
    requires 0 < |d| <= |ls| && d == ls[..|d|] && forall i :: |d| <= i < |ls| ==> ls[i] == []
    ensures Fences(d) == Fences(ls)
    ensures Fences(d) ==> NextFence(d, 2) == NextFence(ls, 2) && FencedBlock(d) == FencedBlock(ls)
  {
    if Fences(ls) {
      var j := NextFence(ls, 2);
      assert j < |d| && ls[1..j] == d[1..j];
    }
  }

  /** A rest of whole stripped lines is its own body exactly when it is empty or does not open blank. */
  lemma RestStableExactly(ls: seq<string>)
    requires ls != [] ==> AreLines(ls) && ls[|ls| - 1] != [] && StripAll(ls) == ls
    ensures BodyPart(TrimLeft(IsNewline, Ended(ls))) == Ended(ls) <==> (ls == [] || ls[0] != [])
  {
    var rest := Ended(ls);
    if ls != [] {
      BodyOfStripped(ls);
      LinesOfJoin(ls);
      FirstLine(Join(ls));
      assert rest[0] == '\n' <==> ls[0] == [];
      var n := TrimLeftSplits(IsNewline, rest);
      var t := TrimLeft(IsNewline, rest);
      if ls[0] == [] {
        assert n > 0;
        if t != "" { BodyShrinks(t); }
      } else {
        assert t == rest;
      }
    }
  }

  lemma RenderedBack(yaml: string -> Option<string>, y: string, fm: string, part: string, rest: string, out: string)
    requires Rendered(yaml, y) && Split(out) == Doc(Some(fm), rest) && out == "---\n" + (fm + "\n") + "---\n" + rest
    ensures "---\n" + y + "---\n" + part == out <==> y == fm + "\n" && part == rest
  {
    SplitCanonical(yaml, y, part);
    assert y == y[..|y| - 1] + "\n";
  }

  lemma Refence(fm: string, rest: string)
    ensures OPENER + (fm + CLOSER + rest) == "---\n" + (fm + "\n") + "---\n" + rest
  {
    Regroup(fm, rest);
    assert "---\n" + (fm + "\n") + "---\n" + rest == OPENER + ((fm + "\n") + (OPENER + rest));
  }

  /** What the second pass makes of a fenced text. */
  lemma FencedPassExactly(yaml: string -> Option<string>, out: string, fm: string, rest: string)
    requires YamlLaw(yaml) && NoCr(out) && Split(out) == Doc(Some(fm), rest) && out == OPENER + (fm + CLOSER + rest)
    ensures Canonicalize(yaml, out) == Some(out) <==>
              yaml(fm) == Some(fm + "\n") && BodyPart(TrimLeft(IsNewline, rest)) == rest
  {
    NoCrIsFixed(out);
    if yaml(fm).Some? {
      Refence(fm, rest);
      RenderedBack(yaml, yaml(fm).value, fm, BodyPart(TrimLeft(IsNewline, rest)), rest, out);
    }
  }

  /** The stripped lines of the newline-trimmed body. */
  function TrimmedLines(raw: string): seq<string> { StripAll(Lines(TrimmedBody(raw))) }

  /** The fenced lines render to themselves, and what follows the closing one does not open blank, if anything does. */
  predicate SettledFence(yaml: string -> Option<string>, ls: seq<string>)
    requires Fences(ls)
  {
    && yaml(FencedBlock(ls)) == Some(FencedBlock(ls) + "\n")
    && var after := AfterFence(ls);
       (after != [] && after[0] != []) || AllBlank(after)
  }

  /** A document without frontmatter whose body is fenced: a blank first line or trailing pads hid the fences. */
  predicate NewlyFenced(raw: string) {
    Split(Normalize(raw)).fm.None? && Fences(TrimmedLines(raw))
  }

  lemma BodyPartLines(raw: string)
    requires TrimmedBody(raw) != ""
    ensures var d := BodyLines(TrimmedBody(raw));
            && AreLines(d) && StripAll(d) == d && BodyPart(TrimmedBody(raw)) == Ended(d)
            && 0 < |d| <= |TrimmedLines(raw)| && d == TrimmedLines(raw)[..|d|]
            && (|d| == 1 || d[|d| - 1] != [])
            && forall i :: |d| <= i < |TrimmedLines(raw)| ==> TrimmedLines(raw)[i] == []
  {
    BodyIsJoined(TrimmedBody(raw));
    StrippedLines(TrimmedBody(raw));
    DropBlankFacts(TrimmedLines(raw));
  }

  /** The body is newly read as frontmatter exactly when it is fenced. */
  lemma NewlyReadExactly(raw: string)
    ensures Split(BodyPart(TrimmedBody(raw))).fm.Some? <==> Fences(TrimmedLines(raw))
  {
    if TrimmedBody(raw) == "" {
      assert Lines("") == [[]];
    } else {
      BodyPartLines(raw);
      var d := BodyLines(TrimmedBody(raw));
      FencesWithoutBlanks(TrimmedLines(raw), d);
      SplitOfLines(d);
    }
  }

  predicate AllBlank(ls: seq<string>) { forall i :: 0 <= i < |ls| ==> ls[i] == [] }

  lemma BlanksIgnored(a: seq<string>, z: seq<string>)
    requires AllBlank(z) && (a != [] ==> a[|a| - 1] != [])
    ensures (a == [] || a[0] != []) <==> (a + z != [] && (a + z)[0] != []) || AllBlank(a + z)
  {
    if a == [] {
      assert a + z == z;
    } else {
      assert (a + z)[0] == a[0] && (a + z)[|a| - 1] == a[|a| - 1];
    }
  }

  lemma AfterWithoutBlanks(ls: seq<string>, d: seq<string>)
    requires 0 < |d| <= |ls| && d == ls[..|d|] && forall i :: |d| <= i < |ls| ==> ls[i] == []
    requires Fences(d) && Fences(ls) && NextFence(d, 2) == NextFence(ls, 2) && d[|d| - 1] != []
    ensures var a, b := AfterFence(d), AfterFence(ls);
            (a == [] || a[0] != []) <==> (b != [] && b[0] != []) || AllBlank(b)
  {
    var k := NextFence(d, 2) + 1;
    TailInTwo(ls, d, k);
    TailBlank(ls, |d|);
    TailLast(d, k);
    BlanksIgnored(d[k..], ls[|d|..]);
  }

  lemma TailBlank(ls: seq<string>, n: nat)
    requires n <= |ls| && forall i :: n <= i < |ls| ==> ls[i] == []
    ensures AllBlank(ls[n..])
  {
  }

  lemma TailLast(d: seq<string>, k: nat)
    requires k <= |d| && d != [] && d[|d| - 1] != []
    ensures d[k..] != [] ==> d[k..][|d[k..]| - 1] != []
  {
  }

  lemma TailInTwo(ls: seq<string>, d: seq<string>, k: nat)
    requires k <= |d| <= |ls| && d == ls[..|d|]
    ensures ls[k..] == d[k..] + ls[|d|..]
  {
  }

  lemma AfterIsStripped(d: seq<string>)
    requires AreLines(d) && StripAll(d) == d && Fences(d)
    ensures var after := AfterFence(d);
            after != [] ==> AreLines(after) && StripAll(after) == after && after[|after| - 1] == d[|d| - 1]
  {
    var j, after := NextFence(d, 2), AfterFence(d);
    forall i | 0 <= i < |after| ensures OneLine(after[i]) && Strip(after[i]) == after[i] {
      assert after[i] == d[j + 1 + i] == StripAll(d)[j + 1 + i];
    }
    assert StripAll(after) == after;
  }

  /** Fenced stripped lines that end in a non-blank one, canonicalised as a text. */
  lemma FencedLinesExactly(yaml: string -> Option<string>, d: seq<string>)
    requires YamlLaw(yaml) && AreLines(d) && StripAll(d) == d && Fences(d) && d[|d| - 1] != [] && NoCr(Ended(d))
    ensures Canonicalize(yaml, Ended(d)) == Some(Ended(d)) <==>
              && yaml(FencedBlock(d)) == Some(FencedBlock(d) + "\n")
              && (AfterFence(d) == [] || AfterFence(d)[0] != [])
  {
    FencedText(d);
    FencedRest(d);
    FencedPassExactly(yaml, Ended(d), FencedBlock(d), Ended(AfterFence(d)));
  }

  lemma FencedText(d: seq<string>)
    requires AreLines(d) && Fences(d)
    ensures Split(Ended(d)) == Doc(Some(FencedBlock(d)), Ended(AfterFence(d)))
    ensures Ended(d) == OPENER + (FencedBlock(d) + CLOSER + Ended(AfterFence(d)))
  {
    SplitOfLines(d);
    CutText(d, NextFence(d, 2));
  }

  lemma FencedRest(d: seq<string>)
    requires AreLines(d) && StripAll(d) == d && Fences(d) && d[|d| - 1] != []
    ensures BodyPart(TrimLeft(IsNewline, Ended(AfterFence(d)))) == Ended(AfterFence(d)) <==>
              (AfterFence(d) == [] || AfterFence(d)[0] != [])
  {
    AfterIsStripped(d);
    RestStableExactly(AfterFence(d));
  }

  lemma NewlyFencedExactly(yaml: string -> Option<string>, raw: string)
    requires YamlLaw(yaml) && NewlyFenced(raw)
    ensures var out := BodyPart(TrimmedBody(raw));
            Canonicalize(yaml, out) == Some(out) <==> SettledFence(yaml, TrimmedLines(raw))
  {
    var ls, d := TrimmedLines(raw), BodyLines(TrimmedBody(raw));
    TrimmedFacts(raw);
    NoCrParts(TrimmedBody(raw));
    assert TrimmedBody(raw) == "" ==> Lines("") == [[]];
    BodyPartLines(raw);
    FencesWithoutBlanks(ls, d);
    FencedLinesExactly(yaml, d);
    AfterWithoutBlanks(ls, d);
  }

  /**
   When canonicalising twice is canonicalising once, for every document. If the newline-trimmed body
   of a document without frontmatter is fenced: exactly when the fenced lines settle. Otherwise:
   exactly when that body does not open with a line of nothing but spaces and tabs.
   */
  lemma IdempotentExactly(yaml: string -> Option<string>, raw: string, out: string)
    requires YamlLaw(yaml) && Canonicalize(yaml, raw) == Some(out)
    ensures Canonicalize(yaml, out) == Some(out) <==>
              if NewlyFenced(raw) then SettledFence(yaml, TrimmedLines(raw)) else !OpensBlank(TrimmedBody(raw))
  {
    if NewlyFenced(raw) {
      NewlyFencedExactly(yaml, raw);
    } else {
      NewlyReadExactly(raw);
      SecondPass(yaml, raw, out);
      TrimmedFacts(raw);
      BodyPartTwiceExactly(TrimmedBody(raw));
    }
  }

  lemma BodyOfPads(s: string)
    requires All(IsPad, s)
    ensures Body(s) == "\n"
  {
    LinesAppend([], s);
    assert [] + s == s && Lines(s) == [s];
    StripFacts(s);
    assert StripAll([s]) == [[]];
  }

  lemma NewlineIsEmpty(yaml: string -> Option<string>, nl: string)
    requires nl == ['\n']
    ensures Canonicalize(yaml, nl) == Some("")
  {
    NoCrIsFixed(nl);
    assert nl[1..] == [] && TrimLeft(IsNewline, nl) == [];
  }

  lemma PadsAreNewline(yaml: string -> Option<string>, s: string)
    requires s != "" && All(IsPad, s)
    ensures Canonicalize(yaml, s) == Some("\n")
  {
    assert IsPad(s[0]);
    NoCrIsFixed(s);
    NoFenceAhead(s);
    BodyOfPads(s);
  }

  lemma NoFenceAhead(s: string)
    requires s != "" && s[0] != '-' && s[0] != '\n'
    ensures Split(s) == Doc(None, s) && TrimLeft(IsNewline, s) == s
  {
    assert OPENER[0] == '-';
    assert |s| >= 4 ==> s[0..4][0] == s[0];
  }

  /** Any run of spaces and tabs canonicalises to a newline, and a newline to nothing. */
  lemma BlankTextNotIdempotent(yaml: string -> Option<string>, s: string)
    requires s != "" && All(IsPad, s)
    ensures Canonicalize(yaml, s) == Some("\n") && Canonicalize(yaml, "\n") == Some("")
  {
    PadsAreNewline(yaml, s);
    NewlineIsEmpty(yaml, "\n");
  }

  lemma StripAppendBlank(ls: seq<string>)
    ensures StripAll(ls + [[]]) == StripAll(ls) + [[]]
  {
    assert Strip([]) == [];
  }

  /** Stripped lines ending in a non-blank one are their own canonical body. */
  lemma BodyOfStripped(ls: seq<string>)
    requires AreLines(ls) && ls[|ls| - 1] != [] && StripAll(ls) == ls
    ensures Body(Join(ls) + "\n") == Join(ls) + "\n"
  {
    var text := Join(ls) + ['\n'];
    assert text == Join(ls) + "\n";
    assert Lines(text) == ls + [[]] by {
      LinesOfJoin(ls);
      LinesSnoc(Join(ls), '\n');
    }
    assert StripAll(ls + [[]]) == ls + [[]] by {
      StripAppendBlank(ls);
    }
    assert DropBlank(ls) == ls;
    assert DropBlank(ls + [[]]) == ls by { DropBlankFacts(ls); }
    assert BodyLines(text) == ls;
    BodyIsJoined(text);
  }

  function Fenced(line: string): string { "---\n" + line + "\n---\n" }

  lemma FencedLines(line: string)
    requires OneLine(line) && Strip(line) == line
    ensures Body(Fenced(line)) == Fenced(line)
  {
    var dashes: string := "---";
    var ls := [dashes, line, dashes];
    assert dashes[2] == '-' && Strip(dashes) == dashes;
    assert ls[..2] == [dashes, line] && ls[..2][..1] == [dashes];
    assert Join([dashes]) == dashes;
    assert Join([dashes, line]) == dashes + "\n" + line;
    assert Join(ls) == (dashes + "\n" + line) + "\n" + dashes;
    assert Fenced(line) == Join(ls) + "\n";
    assert StripAll(ls) == ls;
    BodyOfStripped(ls);
  }

  lemma FencedSplits(line: string)
    requires OneLine(line)
    ensures Split(Fenced(line)) == Doc(Some(line), [])
  {
    var raw, rest := Fenced(line), line + CLOSER;
    assert raw == OPENER + rest && raw[0..4] == OPENER && raw[4..] == rest;
    var k := |line|;
    assert rest[k..k + 5] == CLOSER;
    forall j | 0 <= j < k ensures !At(rest, j, CLOSER) {
      assert rest[j] == line[j] != '\n';
      assert CLOSER[0] == '\n';
      if j + 5 <= |rest| { assert rest[j..j + 5][0] == rest[j]; }
    }
    IndexIs(rest, 0, CLOSER, k);
    assert rest[..k] == line && rest[k + 5..] == [];
  }

  /**
   A fenced line that was not frontmatter, because a blank line stood before it, is frontmatter on
   the second pass: what it becomes, or whether it is refused, is then up to the YAML parser.
   */
  lemma NewlyFrontmatter(yaml: string -> Option<string>, line: string)
    requires OneLine(line) && Strip(line) == line && NoCr(line)
    ensures Canonicalize(yaml, "\n" + Fenced(line)) == Some(Fenced(line))
    ensures Split(Normalize("\n" + Fenced(line))).fm.None? && Split(Normalize(Fenced(line))).fm == Some(line)
    ensures yaml(line).None? ==> Canonicalize(yaml, Fenced(line)).None?
  {
    SplitAfterNewline(Fenced(line));
    FencedNoCr(line);
    FencedLines(line);
    FencedSplits(line);
    NoCrIsFixed("\n" + Fenced(line));
    NoCrIsFixed(Fenced(line));
  }

  lemma FencedNoCr(line: string)
    requires NoCr(line)
    ensures NoCr(Fenced(line)) && NoCr("\n" + Fenced(line))
  {
  }

  lemma SplitAfterNewline(out: string)
    requires out != "" && out[0] != '\n'
    ensures Split("\n" + out) == Doc(None, "\n" + out) && TrimLeft(IsNewline, "\n" + out) == out
  {
    var raw := "\n" + out;
    assert raw[0] == '\n' && raw[1..] == out;
    assert OPENER[0] == '-';
    assert |raw| >= 4 ==> raw[0..4][0] == raw[0];
  }

  // ---- Content identity ----

  lemma BodyPartSameExactly(a: string, b: string)
    ensures BodyPart(a) == BodyPart(b) <==> (a == "" <==> b == "") && SameLines(a, b)
  {
    SameBodyExactly(a, b);
    if a == "" && b == "" {
      assert BodyPart(a) == BodyPart(b) && SameLines(a, b);
    } else if a != "" && b != "" {
      assert BodyPart(a) == Body(a) && BodyPart(b) == Body(b);
      assert SameLines(a, b) <==> Body(a) == Body(b);
    } else {
      assert |Body(a)| > 0 && |Body(b)| > 0;
    }
  }

  /**
   What the canonical form identifies: two documents that both have frontmatter, or both have none, get
   the same form if and only if their frontmatter renders the same and their bodies have the same lines,
   an empty body matching only an empty one.
   */
  lemma SameFormExactly(yaml: string -> Option<string>, a: string, b: string)
    requires YamlLaw(yaml) && Canonicalize(yaml, a).Some? && Canonicalize(yaml, b).Some?
    requires Split(Normalize(a)).fm.Some? <==> Split(Normalize(b)).fm.Some?
    ensures Canonicalize(yaml, a) == Canonicalize(yaml, b) <==>
              && (TrimmedBody(a) == "" <==> TrimmedBody(b) == "") && SameLines(TrimmedBody(a), TrimmedBody(b))
              && (Split(Normalize(a)).fm.Some? ==>
                    yaml(Split(Normalize(a)).fm.value) == yaml(Split(Normalize(b)).fm.value))
  {
    BodyPartSameExactly(TrimmedBody(a), TrimmedBody(b));
    var da, db := Split(Normalize(a)), Split(Normalize(b));
    if da.fm.Some? {
      SameFenced(yaml, yaml(da.fm.value).value, BodyPart(TrimmedBody(a)), yaml(db.fm.value).value,
                 BodyPart(TrimmedBody(b)));
    }
  }

  lemma SameFenced(yaml: string -> Option<string>, y: string, part: string, y': string, part': string)
    requires Rendered(yaml, y) && Rendered(yaml, y')
    ensures "---\n" + y + "---\n" + part == "---\n" + y' + "---\n" + part' <==> y == y' && part == part'
  {
    SplitCanonical(yaml, y, part);
    SplitCanonical(yaml, y', part');
    EndsInNewline(y);
    EndsInNewline(y');
  }

  lemma EndsInNewline(y: string)
    requires |y| > 0 && y[|y| - 1] == '\n'
    ensures y == y[..|y| - 1] + ['\n']
  {
  }

  // ---- Full and body-only forms ----

  /**
   On a text without frontmatter the full form is the body-only form exactly when something is left
   after the leading newlines; otherwise the full form is empty and the body-only form is a newline.
   */
  lemma FormsAgreeExactly(yaml: string -> Option<string>, raw: string)
    requires Split(Normalize(raw)).fm.None?
    ensures Canonicalize(yaml, raw) == Some(BodyForm(raw)) <==> TrimmedBody(raw) != ""
    ensures TrimmedBody(raw) == "" ==> Canonicalize(yaml, raw) == Some("") && BodyForm(raw) == "\n"
  {
    assert Lines("") == [[]] && Strip([]) == [] && StripAll([[]]) == [[]];
  }

  /** The body-only form ignores the frontmatter and tells texts apart by their stripped lines alone. */
  lemma SameBodyFormExactly(a: string, b: string)
    ensures BodyForm(a) == BodyForm(b) <==> SameLines(TrimmedBody(a), TrimmedBody(b))
  {
    SameBodyExactly(TrimmedBody(a), TrimmedBody(b));
  }
}
