/** The attachment filename normaliser (internal/canonicalize/filename.go). */
module Filenames {
  import opened Text

  predicate IsAscii(c: char) { (c as int) < 128 }

  /** TrimSpace strips a vertical tab; \s does not match it. */
  const VT := 0x0B as char

  predicate IsUpper(c: char) { 'A' <= c <= 'Z' }

  function LowerChar(c: char): char {
    if IsUpper(c) then (c as int + 32) as char else c
  }

  /** strings.ToLower on ASCII. */
  function Lower(s: string): string {
    seq(|s|, i requires 0 <= i < |s| => LowerChar(s[i]))
  }

  /** filepath.Ext: from the last dot of the last path element. */
  function Ext(s: string): string {
    if s == [] || s[|s| - 1] == '/' then []
    else if s[|s| - 1] == '.' then "."
    else
      var e := Ext(s[..|s| - 1]);
      if e == [] then [] else e + [s[|s| - 1]]
  }

  /** \s in Go's regexp syntax. */
  predicate IsBlank(c: char) { c == '\t' || c == '\n' || c as int == 0x0C || c == '\r' || c == ' ' }

  const NOISE: string := ".,!'`();:[]{}@#$%^&+="

  const HOSTILE: string := "/\\:*?\"<>|"

  predicate IsNoise(c: char) { c in NOISE }

  predicate IsUnsafe(c: char) { c in HOSTILE || IsBlank(c) }

  predicate IsEdge(c: char) { c == '_' || c == '-' }

  /** \s*-\s* becomes - */
  function JoinHyphens(s: string): string
    decreases |s|
  {
    if s == [] then []
    else
      var t := TrimLeft(IsBlank, s);
      TrimLeftShrinks(s);
      if t != [] && t[0] == '-' then
        TrimLeftShrinks(t[1..]);
        ['-'] + JoinHyphens(TrimLeft(IsBlank, t[1..]))
      else [s[0]] + JoinHyphens(s[1..])
  }

  lemma {:induction false} TrimLeftShrinks(s: string)
    ensures |TrimLeft(IsBlank, s)| <= |s|
    ensures forall i :: 0 <= i < |TrimLeft(IsBlank, s)| ==> TrimLeft(IsBlank, s)[i] in s
  {
    var n := TrimLeftSplits(IsBlank, s);
  }

  function DropNoise(s: string): string {
    if s == [] then [] else (if IsNoise(s[0]) then [] else [s[0]]) + DropNoise(s[1..])
  }

  function SafeChar(c: char): char { if IsUnsafe(c) then '_' else c }

  function Safe(s: string): string {
    seq(|s|, i requires 0 <= i < |s| => SafeChar(s[i]))
  }

  /** _+ becomes _ */
  function Collapse(s: string): string {
    if s == [] then []
    else if s[0] == '_' && |s| > 1 && s[1] == '_' then Collapse(s[1..])
    else [s[0]] + Collapse(s[1..])
  }

  function Base(s: string): string {
    Trim(IsEdge, Collapse(Safe(DropNoise(JoinHyphens(Lower(s))))))
  }

  function Filename(human: string): string {
    var h := Trim(IsSpace, human);
    if h == "" then "" else Base(Stem(h)) + Lower(Ext(h))
  }

  /** The name without its extension. */
  function Stem(h: string): string {
    ExtIsSuffix(h);
    h[..|h| - |Ext(h)|]
  }

  // ---- What a normalised base looks like ----

  predicate TidyChar(c: char) { IsAscii(c) && !IsUpper(c) && !IsNoise(c) && !IsUnsafe(c) }

  lemma CharFacts()
    ensures TidyChar('_')
    ensures forall c :: TidyChar(c) ==> c != '.' && c != '/' && !IsBlank(c) && (IsSpace(c) ==> c == VT)
  {
    assert NOISE[0] == '.' && HOSTILE[0] == '/';
  }

  predicate Tidy(s: string) {
    && All(TidyChar, s) && Clean(IsEdge, s)
    && forall i :: 0 < i < |s| ==> !(s[i - 1] == '_' && s[i] == '_')
  }

  /** An extension: empty, or a dot followed by anything but dots and slashes. */
  predicate IsExt(e: string) {
    e == [] || (e[0] == '.' && forall i :: 0 < i < |e| ==> e[i] != '.' && e[i] != '/')
  }

  lemma {:induction false} ExtIsSuffix(s: string)
    ensures |Ext(s)| <= |s| && Ext(s) == s[|s| - |Ext(s)|..] && IsExt(Ext(s))
    ensures Ext(s) != [] ==> Ext(s)[|Ext(s)| - 1] == s[|s| - 1]
  {
    if s == [] || s[|s| - 1] == '/' || s[|s| - 1] == '.' {
    } else {
      ExtIsSuffix(s[..|s| - 1]);
    }
  }

  predicate NoDotOrSlash(s: string) {
    forall i :: 0 <= i < |s| ==> s[i] != '.' && s[i] != '/'
  }

  lemma {:induction false} NoExt(b: string)
    requires NoDotOrSlash(b)
    ensures Ext(b) == []
  {
    if b != [] {
      NoExt(b[..|b| - 1]);
    }
  }

  /** Appending an extension to a text without dots or slashes gives that extension back. */
  lemma {:induction false} ExtOfConcat(b: string, e: string)
    requires IsExt(e) && NoDotOrSlash(b)
    ensures Ext(b + e) == e
    decreases |e|
  {
    var s := b + e;
    if e == [] {
      assert s == b;
      NoExt(b);
    } else {
      var f, last := e[..|e| - 1], e[|e| - 1];
      assert s[..|s| - 1] == b + f && s[|s| - 1] == last && f + [last] == e;
      if |e| > 1 {
        ExtOfConcat(b, f);
      }
    }
  }

  lemma LowerOnce(s: string)
    ensures Lower(Lower(s)) == Lower(s)
    ensures forall i :: 0 <= i < |Lower(s)| ==> !IsUpper(Lower(s)[i])
  {
  }

  lemma {:induction false} JoinHyphensKeepsChars(s: string)
    ensures forall c :: c in JoinHyphens(s) ==> c in s
    ensures |JoinHyphens(s)| <= |s|
    decreases |s|
  {
    if s != [] {
      var t := TrimLeft(IsBlank, s);
      TrimLeftShrinks(s);
      if t != [] && t[0] == '-' {
        TrimLeftShrinks(t[1..]);
        JoinHyphensKeepsChars(TrimLeft(IsBlank, t[1..]));
        assert t[0] in s;
        forall c | c in TrimLeft(IsBlank, t[1..]) ensures c in s {
          assert c in t[1..];
          assert c in t;
        }
      } else {
        JoinHyphensKeepsChars(s[1..]);
      }
    }
  }

  lemma {:induction false} DropNoiseChars(s: string)
    ensures forall c :: c in DropNoise(s) ==> c in s && !IsNoise(c)
    ensures |DropNoise(s)| <= |s|
  {
    if s != [] {
      DropNoiseChars(s[1..]);
    }
  }

  lemma {:induction false} CollapseChars(s: string)
    ensures forall c :: c in Collapse(s) ==> c in s
    ensures |Collapse(s)| <= |s|
    ensures s != [] ==> Collapse(s) != [] && Collapse(s)[0] == s[0]
    ensures forall i :: 0 < i < |Collapse(s)| ==> !(Collapse(s)[i - 1] == '_' && Collapse(s)[i] == '_')
  {
    if s != [] {
      CollapseChars(s[1..]);
    }
  }

  /** The character passes leave only tidy characters, all from the text or the replacement. */
  lemma PassesTidy(s: string)
    requires All(IsAscii, s)
    ensures var d := Collapse(Safe(DropNoise(JoinHyphens(Lower(s)))));
            && All(TidyChar, d) && |d| <= |s|
            && (forall c :: c in d ==> c in Lower(s) || c == '_')
            && forall i :: 0 < i < |d| ==> !(d[i - 1] == '_' && d[i] == '_')
  {
    var a := JoinHyphens(Lower(s));
    var b := DropNoise(a);
    var c := Safe(b);
    var d := Collapse(c);
    JoinHyphensKeepsChars(Lower(s));
    DropNoiseChars(a);
    CollapseChars(c);
    CharFacts();
    forall i | 0 <= i < |c| ensures TidyChar(c[i]) && (c[i] in Lower(s) || c[i] == '_') {
      assert b[i] in a && b[i] in Lower(s);
    }
    forall i | 0 <= i < |d| ensures TidyChar(d[i]) {
      assert d[i] in c;
    }
  }

  /** Every pass together: the base of any ASCII name is tidy. */
  lemma BaseIsTidy(s: string)
    requires All(IsAscii, s)
    ensures Tidy(Base(s))
    ensures forall c :: c in Base(s) ==> c in Lower(s) || c == '_'
    ensures |Base(s)| <= |s|
  {
    PassesTidy(s);
    var d := Collapse(Safe(DropNoise(JoinHyphens(Lower(s)))));
    var m := TrimLeftSplits(IsEdge, d);
    var n := TrimRightSplits(IsEdge, d[m..]);
    TrimIsClean(IsEdge, d);
  }

  lemma {:induction false} NothingToJoin(s: string)
    requires forall i :: 0 <= i < |s| ==> !IsBlank(s[i])
    ensures JoinHyphens(s) == s
  {
    if s != [] {
      assert TrimLeft(IsBlank, s) == s;
      assert TrimLeft(IsBlank, s[1..]) == s[1..];
      NothingToJoin(s[1..]);
    }
  }

  lemma {:induction false} NothingToDrop(s: string)
    requires forall i :: 0 <= i < |s| ==> !IsNoise(s[i])
    ensures DropNoise(s) == s
  {
    if s != [] {
      NothingToDrop(s[1..]);
    }
  }

  lemma {:induction false} NothingToCollapse(s: string)
    requires forall i :: 0 < i < |s| ==> !(s[i - 1] == '_' && s[i] == '_')
    ensures Collapse(s) == s
  {
    if s != [] {
      assert forall i :: 0 < i < |s[1..]| ==> s[1..][i - 1] == s[i] && s[1..][i] == s[i + 1];
      NothingToCollapse(s[1..]);
    }
  }

  /** A tidy base passes through unchanged. */
  lemma TidyIsFixed(s: string)
    requires Tidy(s)
    ensures Base(s) == s
  {
    PassesIdentity(s);
    CleanIsFixed(IsEdge, s);
  }

  /** The pieces of a normalised name: a tidy base and the lowered extension. */
  lemma FilenameParts(human: string) returns (b: string, e: string)
    requires All(IsAscii, human)
    ensures Filename(human) == b + e && Tidy(b) && IsExt(e) && Lower(e) == e && All(IsAscii, e)
    ensures |b| + |e| <= |Trim(IsSpace, human)|
    ensures e != [] ==> !IsSpace(e[|e| - 1])
    ensures VT !in human ==> VT !in b
  {
    var h := Trim(IsSpace, human);
    TrimmedChars(human);
    if h == "" {
      b, e := "", "";
    } else {
      b, e := PartsOfTrimmed(h);
    }
  }

  lemma TrimmedChars(human: string)
    ensures Clean(IsSpace, Trim(IsSpace, human))
    ensures All(IsAscii, human) ==> All(IsAscii, Trim(IsSpace, human))
    ensures VT !in human ==> forall i :: 0 <= i < |Trim(IsSpace, human)| ==> Trim(IsSpace, human)[i] != VT
  {
    var h := Trim(IsSpace, human);
    TrimIsClean(IsSpace, human);
    forall i | 0 <= i < |h| ensures h[i] in human { assert h[i] in h; }
  }

  lemma PartsOfTrimmed(h: string) returns (b: string, e: string)
    requires h != "" && All(IsAscii, h) && Clean(IsSpace, h)
    ensures b == Base(Stem(h)) && e == Lower(Ext(h))
    ensures Tidy(b) && IsExt(e) && Lower(e) == e && All(IsAscii, e) && |b| + |e| <= |h|
    ensures e != [] ==> !IsSpace(e[|e| - 1])
    ensures (forall i :: 0 <= i < |h| ==> h[i] != VT) ==> VT !in b
  {
    ExtIsSuffix(h);
    b, e := Base(Stem(h)), Lower(Ext(h));
    BaseIsTidy(Stem(h));
    LowerOnce(Ext(h));
    assert forall i :: 0 <= i < |Stem(h)| ==> Stem(h)[i] == h[i];
  }

  lemma Reassembled(b: string, e: string)
    requires Tidy(b) && IsExt(e) && Lower(e) == e && Clean(IsSpace, b + e)
    ensures Filename(b + e) == b + e
  {
    var r := b + e;
    assert forall i :: 0 <= i < |b| ==> TidyChar(b[i]);
    CharFacts();
    ExtOfConcat(b, e);
    CleanIsFixed(IsSpace, r);
    if r != "" {
      assert Stem(r) == b;
      TidyIsFixed(b);
    }
  }

  lemma TrimStrictly(p: char -> bool, s: string)
    requires !Clean(p, s)
    ensures |Trim(p, s)| < |s|
  {
    var m := TrimLeftSplits(p, s);
    var n := TrimRightSplits(p, s[m..]);
  }

  lemma UntrimmedIsUnstable(r: string)
    requires All(IsAscii, r) && !Clean(IsSpace, r)
    ensures Filename(r) != r
  {
    TrimStrictly(IsSpace, r);
    var b, e := FilenameParts(r);
  }

  lemma TidyEnds(b: string, e: string)
    requires Tidy(b) && VT !in b && IsExt(e) && (e != [] ==> !IsSpace(e[|e| - 1]))
    ensures Clean(IsSpace, b + e)
  {
    CharFacts();
    forall i | 0 <= i < |b| ensures !IsSpace(b[i]) { assert TidyChar(b[i]) && b[i] in b; }
  }

  // ---- The characters a base keeps ----

  /** Not noise, not turned into an underscore, and not trimmed as one or as a hyphen. */
  predicate IsKept(c: char) { !IsNoise(c) && !IsUnsafe(c) && !IsEdge(c) }

  function Kept(s: string): string {
    if s == [] then [] else (if IsKept(s[0]) then [s[0]] else []) + Kept(s[1..])
  }

  lemma {:induction false} KeptConcat(s: string, t: string)
    ensures Kept(s + t) == Kept(s) + Kept(t)
  {
    if s == [] {
      assert s + t == t;
    } else {
      assert (s + t)[0] == s[0] && (s + t)[1..] == s[1..] + t;
      KeptConcat(s[1..], t);
      var head := if IsKept(s[0]) then [s[0]] else [];
      assert head + (Kept(s[1..]) + Kept(t)) == (head + Kept(s[1..])) + Kept(t);
    }
  }

  lemma {:induction false} NoneKept(s: string)
    requires forall i :: 0 <= i < |s| ==> !IsKept(s[i])
    ensures Kept(s) == []
  {
    if s != [] {
      assert forall i :: 0 <= i < |s[1..]| ==> s[1..][i] == s[i + 1];
      NoneKept(s[1..]);
    }
  }

  lemma KeptAfterTrimLeft(p: char -> bool, s: string)
    requires forall c :: p(c) ==> !IsKept(c)
    ensures Kept(TrimLeft(p, s)) == Kept(s)
  {
    var n := TrimLeftSplits(p, s);
    assert s == s[..n] + s[n..];
    KeptConcat(s[..n], s[n..]);
    NoneKept(s[..n]);
    assert [] + Kept(s[n..]) == Kept(s[n..]);
  }

  lemma KeptAfterTrimRight(p: char -> bool, s: string)
    requires forall c :: p(c) ==> !IsKept(c)
    ensures Kept(TrimRight(p, s)) == Kept(s)
  {
    var n := TrimRightSplits(p, s);
    assert s == s[..n] + s[n..];
    KeptConcat(s[..n], s[n..]);
    NoneKept(s[n..]);
    assert Kept(s[..n]) + [] == Kept(s[..n]);
  }

  lemma {:induction false} KeptAfterLower(s: string)
    ensures Kept(Lower(s)) == Lower(Kept(s))
  {
    if s != [] {
      KeptAfterLower(s[1..]);
      LowerTail(s);
      LowerKeepsKept(s[0]);
      LowerConcat(if IsKept(s[0]) then [s[0]] else [], Kept(s[1..]));
    }
  }

  lemma LowerTail(s: string)
    requires s != []
    ensures Lower(s)[0] == LowerChar(s[0]) && Lower(s)[1..] == Lower(s[1..]) && Lower([s[0]]) == [LowerChar(s[0])]
  {
  }

  lemma LowerConcat(s: string, t: string)
    ensures Lower(s + t) == Lower(s) + Lower(t)
  {
  }

  lemma LowerKeepsKept(c: char)
    ensures IsKept(LowerChar(c)) == IsKept(c) && (LowerChar(c) == VT <==> c == VT)
  {
    assert forall i :: 0 <= i < |NOISE| ==> !('A' <= NOISE[i] <= 'Z' || 'a' <= NOISE[i] <= 'z');
    assert forall i :: 0 <= i < |HOSTILE| ==> !('A' <= HOSTILE[i] <= 'Z' || 'a' <= HOSTILE[i] <= 'z');
  }

  lemma {:induction false} KeptAfterJoin(s: string)
    ensures Kept(JoinHyphens(s)) == Kept(s)
    decreases |s|
  {
    if s != [] {
      var t := TrimLeft(IsBlank, s);
      TrimLeftShrinks(s);
      KeptAfterTrimLeft(IsBlank, s);
      if t != [] && t[0] == '-' {
        var u := TrimLeft(IsBlank, t[1..]);
        TrimLeftShrinks(t[1..]);
        KeptAfterTrimLeft(IsBlank, t[1..]);
        KeptAfterJoin(u);
        assert (['-'] + JoinHyphens(u))[1..] == JoinHyphens(u);
        assert [] + Kept(u) == Kept(u) && [] + Kept(t[1..]) == Kept(t[1..])
               && [] + Kept(JoinHyphens(u)) == Kept(JoinHyphens(u));
      } else {
        KeptAfterJoin(s[1..]);
        assert ([s[0]] + JoinHyphens(s[1..]))[1..] == JoinHyphens(s[1..]);
      }
    }
  }

  lemma {:induction false} KeptAfterDrop(s: string)
    ensures Kept(DropNoise(s)) == Kept(s)
  {
    if s != [] {
      KeptAfterDrop(s[1..]);
      if IsNoise(s[0]) {
        assert [] + DropNoise(s[1..]) == DropNoise(s[1..]) && [] + Kept(s[1..]) == Kept(s[1..]);
      } else {
        assert ([s[0]] + DropNoise(s[1..]))[1..] == DropNoise(s[1..]);
      }
    }
  }

  lemma {:induction false} KeptAfterSafe(s: string)
    ensures Kept(Safe(s)) == Kept(s)
  {
    if s != [] {
      KeptAfterSafe(s[1..]);
      assert Safe(s)[1..] == Safe(s[1..]);
    }
  }

  lemma {:induction false} KeptAfterCollapse(s: string)
    ensures Kept(Collapse(s)) == Kept(s)
  {
    if s != [] {
      KeptAfterCollapse(s[1..]);
      if s[0] == '_' && |s| > 1 && s[1] == '_' {
        assert [] + Kept(s[1..]) == Kept(s[1..]);
      } else {
        assert ([s[0]] + Collapse(s[1..]))[1..] == Collapse(s[1..]);
      }
    }
  }

  /** A base holds exactly the kept characters of its text, in order, among underscores and hyphens. */
  lemma KeptInBase(s: string)
    ensures Kept(Base(s)) == Lower(Kept(s))
  {
    var a := JoinHyphens(Lower(s));
    var b := DropNoise(a);
    var c := Safe(b);
    var d := Collapse(c);
    KeptAfterLower(s);
    KeptAfterJoin(Lower(s));
    KeptAfterDrop(a);
    KeptAfterSafe(b);
    KeptAfterCollapse(c);
    KeptAfterTrimLeft(IsEdge, d);
    KeptAfterTrimRight(IsEdge, TrimLeft(IsEdge, d));
  }

  /** A tidy base begins and ends with kept characters. */
  lemma TidyBounds(b: string)
    requires Tidy(b)
    ensures b == [] <==> Kept(b) == []
    ensures b != [] ==> Kept(b)[0] == b[0] && Kept(b)[|Kept(b)| - 1] == b[|b| - 1]
  {
    if b != [] {
      var n := |b| - 1;
      assert TidyChar(b[0]) && TidyChar(b[n]);
      assert IsKept(b[0]) && IsKept(b[n]);
      assert b == b[..n] + [b[n]];
      KeptConcat(b[..n], [b[n]]);
      assert Kept([b[n]]) == [b[n]];
    }
  }

  // ---- What becomes of each character ----

  /** The characters a base is rid of, as the documentation lists them, and the capitals. */
  predicate Unwanted(c: char) {
    || c in ".,!'`();:[]{}@#$%^&+=" || c in "/\\*?\"<>|" || c in " \t\n\r" || c as int == 0x0C || 'A' <= c <= 'Z'
  }

  /** A base of an ASCII name has none of them, whatever the name. */
  lemma BaseHasNoneUnwanted(s: string)
    requires All(IsAscii, s)
    ensures forall c :: c in Base(s) ==> !Unwanted(c)
  {
    BaseIsTidy(s);
    forall i | 0 <= i < |Base(s)| ensures !Unwanted(Base(s)[i]) {
      assert TidyChar(Base(s)[i]);
    }
  }

  /** And the others, but for underscores and hyphens, it keeps. */
  lemma KeptExactly(c: char)
    requires IsAscii(c)
    ensures IsKept(LowerChar(c)) <==> !Unwanted(LowerChar(c)) && c != '_' && c != '-'
  {
  }

  lemma {:induction false} TrimBlanks(w: string, s: string)
    requires All(IsBlank, w)
    ensures TrimLeft(IsBlank, w + s) == TrimLeft(IsBlank, s)
  {
    if w == [] {
      assert w + s == s;
    } else {
      assert (w + s)[0] == w[0] && (w + s)[1..] == w[1..] + s;
      assert forall i :: 0 <= i < |w[1..]| ==> w[1..][i] == w[i + 1];
      TrimBlanks(w[1..], s);
    }
  }

  /** TrimLeft of a text that is more than blanks stays within it. */
  lemma {:induction false} TrimWithin(a: string, s: string)
    requires !All(IsBlank, a)
    ensures TrimLeft(IsBlank, a + s) == TrimLeft(IsBlank, a) + s && TrimLeft(IsBlank, a) != []
  {
    assert (a + s)[0] == a[0];
    if IsBlank(a[0]) {
      assert (a + s)[1..] == a[1..] + s;
      assert !All(IsBlank, a[1..]) by {
        var i :| 0 <= i < |a| && !IsBlank(a[i]);
        assert a[1..][i - 1] == a[i];
      }
      TrimWithin(a[1..], s);
    }
  }

  lemma JoinAtHyphen(w: string, b: string)
    requires All(IsBlank, w)
    ensures JoinHyphens(w + "-" + b) == "-" + JoinHyphens(TrimLeft(IsBlank, b))
  {
    var s := w + "-" + b;
    assert s == w + ("-" + b);
    TrimBlanks(w, "-" + b);
    assert ("-" + b)[0] == '-' && ("-" + b)[1..] == b;
    assert TrimLeft(IsBlank, s) == "-" + b;
  }

  /** Blanks on either side of a hyphen vanish. */
  lemma {:induction false} JoinAround(a: string, w: string, x: string, b: string)
    requires All(IsBlank, w) && All(IsBlank, x)
    ensures JoinHyphens(a + w + "-" + x + b) == JoinHyphens(a + "-" + b)
    decreases |a|, 1
  {
    if All(IsBlank, a) {
      assert a + w + "-" + x + b == (a + w) + "-" + (x + b);
      JoinAtHyphen(a + w, x + b);
      JoinAtHyphen(a, b);
      TrimBlanks(x, b);
    } else {
      JoinInside(a, w, x, b);
    }
  }

  lemma JoinInside(a: string, w: string, x: string, b: string)
    requires All(IsBlank, w) && All(IsBlank, x) && !All(IsBlank, a)
    ensures JoinHyphens(a + w + "-" + x + b) == JoinHyphens(a + "-" + b)
    decreases |a|, 0
  {
    var r, q := w + "-" + x + b, "-" + b;
    assert a + w + "-" + x + b == a + r && a + "-" + b == a + q;
    var t := TrimLeft(IsBlank, a);
    TrimWithin(a, r);
    TrimWithin(a, q);
    TrimLeftShrinks(a);
    if t[0] == '-' {
      var u := t[1..];
      assert (t + r)[1..] == u + r && (t + q)[1..] == u + q;
      AfterHyphen(u, w, x, b);
    } else {
      assert (a + r)[0] == a[0] && (a + r)[1..] == a[1..] + r;
      assert (a + q)[0] == a[0] && (a + q)[1..] == a[1..] + q;
      assert a[1..] + r == a[1..] + w + "-" + x + b && a[1..] + q == a[1..] + "-" + b;
      JoinAround(a[1..], w, x, b);
    }
  }

  lemma AfterHyphen(u: string, w: string, x: string, b: string)
    requires All(IsBlank, w) && All(IsBlank, x)
    ensures JoinHyphens(TrimLeft(IsBlank, u + (w + "-" + x + b))) == JoinHyphens(TrimLeft(IsBlank, u + ("-" + b)))
    decreases |u|, 2
  {
    var r, q := w + "-" + x + b, "-" + b;
    if All(IsBlank, u) {
      TrimBlanks(u, r);
      TrimBlanks(u, q);
      assert r == w + ("-" + (x + b));
      TrimBlanks(w, "-" + (x + b));
      var d: string := "";
      assert "-" + (x + b) == d + "-" + (x + b) && q == d + "-" + b;
      JoinAtHyphen(d, x + b);
      JoinAtHyphen(d, b);
      TrimBlanks(x, b);
    } else {
      var v := TrimLeft(IsBlank, u);
      TrimWithin(u, r);
      TrimWithin(u, q);
      TrimLeftShrinks(u);
      assert v + r == v + w + "-" + x + b && v + q == v + "-" + b;
      JoinAround(v, w, x, b);
    }
  }

  lemma LowerBlanks(w: string)
    requires All(IsBlank, w)
    ensures Lower(w) == w
  {
  }

  /** So a name is the same however many blanks surround its hyphens. */
  lemma HyphensCloseUp(a: string, w: string, x: string, b: string)
    requires All(IsBlank, w) && All(IsBlank, x)
    ensures Base(a + w + "-" + x + b) == Base(a + "-" + b)
  {
    LowerBlanks(w);
    LowerBlanks(x);
    assert Lower(a + w + "-" + x + b) == Lower(a) + w + "-" + x + Lower(b);
    assert Lower(a + "-" + b) == Lower(a) + "-" + Lower(b);
    JoinAround(Lower(a), w, x, Lower(b));
  }

  /** A word of small letters and digits. */
  predicate IsWord(u: string) { u != "" && forall i :: 0 <= i < |u| ==> IsAlnum(u[i]) }

  lemma {:induction false} NoHyphenNoJoin(s: string)
    requires forall i :: 0 <= i < |s| ==> s[i] != '-'
    ensures JoinHyphens(s) == s
  {
    if s != [] {
      TrimLeftShrinks(s);
      var t := TrimLeft(IsBlank, s);
      if t != [] { assert t[0] in s; }
      assert JoinHyphens(s) == [s[0]] + JoinHyphens(s[1..]);
      assert forall i :: 0 <= i < |s[1..]| ==> s[1..][i] == s[i + 1];
      NoHyphenNoJoin(s[1..]);
    }
  }

  lemma {:induction false} CollapseRun(n: nat, v: string)
    requires v == "" || v[0] != '_'
    ensures Collapse(seq(n, _ => '_') + v) == if n == 0 then Collapse(v) else "_" + Collapse(v)
  {
    var s := seq(n, _ => '_') + v;
    if n == 0 {
      assert s == v;
    } else {
      assert s[0] == '_' && s[1..] == seq(n - 1, _ => '_') + v;
      CollapseRun(n - 1, v);
    }
  }

  lemma {:induction false} CollapseWord(u: string, rest: string)
    requires forall i :: 0 <= i < |u| ==> u[i] != '_'
    ensures Collapse(u + rest) == u + Collapse(rest)
  {
    if u == [] {
      assert u + rest == rest;
    } else {
      var s := u + rest;
      assert s[0] == u[0] && s[1..] == u[1..] + rest;
      assert forall i :: 0 <= i < |u[1..]| ==> u[1..][i] == u[i + 1];
      CollapseWord(u[1..], rest);
      assert [u[0]] + (u[1..] + Collapse(rest)) == u + Collapse(rest);
    }
  }

  /** A blank or a character a file system refuses, except the colon. */
  predicate IsSeparator(c: char) { c in "/\\*?\"<>|" || c in " \t\n\r" || c as int == 0x0C }

  predicate IsPunctuation(c: char) { c in ".,!'`();:[]{}@#$%^&+=" }

  lemma WordChar(c: char)
    requires IsAlnum(c)
    ensures LowerChar(c) == c && c != '-' && c != '_' && !IsNoise(c) && SafeChar(c) == c && !IsEdge(c)
  {
  }

  lemma SeparatorChar(c: char)
    requires IsSeparator(c)
    ensures LowerChar(c) == c && c != '-' && !IsNoise(c) && SafeChar(c) == '_'
  {
  }

  lemma PunctuationChar(c: char)
    requires IsPunctuation(c)
    ensures LowerChar(c) == c && c != '-' && IsNoise(c)
  {
  }

  /** What the passes do to a part of a name. */
  predicate Part(s: string, dropped: string, safe: string) {
    && Lower(s) == s && DropNoise(s) == dropped && Safe(dropped) == safe
    && forall i :: 0 <= i < |s| ==> s[i] != '-'
  }

  lemma WordPart(u: string)
    requires IsWord(u)
    ensures Part(u, u, u) && forall i :: 0 <= i < |u| ==> u[i] != '_' && !IsEdge(u[i])
  {
    forall i | 0 <= i < |u|
      ensures LowerChar(u[i]) == u[i] && u[i] != '-' && u[i] != '_' && !IsNoise(u[i]) && SafeChar(u[i]) == u[i]
    {
      WordChar(u[i]);
    }
    NothingToDrop(u);
  }

  lemma SeparatorPart(sep: string)
    requires forall i :: 0 <= i < |sep| ==> IsSeparator(sep[i])
    ensures Part(sep, sep, seq(|sep|, _ => '_'))
  {
    forall i | 0 <= i < |sep|
      ensures LowerChar(sep[i]) == sep[i] && sep[i] != '-' && !IsNoise(sep[i]) && SafeChar(sep[i]) == '_'
    {
      SeparatorChar(sep[i]);
    }
    NothingToDrop(sep);
  }

  lemma PunctuationPart(p: string)
    requires forall i :: 0 <= i < |p| ==> IsPunctuation(p[i])
    ensures Part(p, "", "")
  {
    forall i | 0 <= i < |p| ensures LowerChar(p[i]) == p[i] && p[i] != '-' && IsNoise(p[i]) {
      PunctuationChar(p[i]);
    }
    DropAll(p);
  }

  lemma PartsConcat(s: string, d: string, f: string, s': string, d': string, f': string)
    requires Part(s, d, f) && Part(s', d', f')
    ensures Part(s + s', d + d', f + f')
  {
    DropConcat(s, s');
    assert Lower(s + s') == Lower(s) + Lower(s');
    assert Safe(d + d') == Safe(d) + Safe(d');
  }

  lemma BaseOfPart(s: string, d: string, f: string)
    requires Part(s, d, f)
    ensures Base(s) == Trim(IsEdge, Collapse(f))
  {
    NoHyphenNoJoin(s);
  }

  lemma WordsClean(u: string, mid: string, v: string)
    requires IsWord(u) && IsWord(v)
    ensures Trim(IsEdge, u + mid + v) == u + mid + v
  {
    WordPart(u);
    WordPart(v);
    var s := u + mid + v;
    assert s[0] == u[0] && s[|s| - 1] == v[|v| - 1];
    CleanIsFixed(IsEdge, s);
  }

  /** Between two words any run of separators becomes one underscore. */
  lemma SeparatorsBecomeUnderscore(u: string, sep: string, v: string)
    requires IsWord(u) && IsWord(v) && sep != "" && forall i :: 0 <= i < |sep| ==> IsSeparator(sep[i])
    ensures Base(u + sep + v) == u + "_" + v
  {
    var run := seq(|sep|, _ => '_');
    WordPart(u);
    WordPart(v);
    SeparatorPart(sep);
    PartsConcat(u, u, u, sep, sep, run);
    PartsConcat(u + sep, u + sep, u + run, v, v, v);
    BaseOfPart(u + sep + v, u + sep + v, u + run + v);
    CollapseBetween(u, |sep|, v);
    WordsClean(u, "_", v);
  }

  lemma CollapseAlone(v: string)
    requires IsWord(v)
    ensures Collapse(v) == v
  {
    WordPart(v);
    assert v + [] == v;
    CollapseWord(v, []);
  }

  lemma CollapseBetween(u: string, n: nat, v: string)
    requires IsWord(u) && IsWord(v) && n > 0
    ensures Collapse(u + seq(n, _ => '_') + v) == u + "_" + v
  {
    var run := seq(n, _ => '_');
    WordPart(u);
    WordPart(v);
    assert u + run + v == u + (run + v);
    CollapseWord(u, run + v);
    CollapseRun(n, v);
    CollapseAlone(v);
    assert u + ("_" + v) == u + "_" + v;
  }

  /** Punctuation, the colon with it, is dropped without a trace. */
  lemma PunctuationVanishes(u: string, p: string, v: string)
    requires IsWord(u) && IsWord(v) && forall i :: 0 <= i < |p| ==> IsPunctuation(p[i])
    ensures Base(u + p + v) == u + v
  {
    var none: string := "";
    WordPart(u);
    WordPart(v);
    PunctuationPart(p);
    PartsConcat(u, u, u, p, none, none);
    assert u + none == u;
    PartsConcat(u + p, u, u, v, v, v);
    BaseOfPart(u + p + v, u + v, u + v);
    assert u + v == (u + v) + none && u + none + v == u + v;
    CollapseWord(u + v, none);
    WordsClean(u, none, v);
  }

  lemma {:induction false} DropConcat(s: string, t: string)
    ensures DropNoise(s + t) == DropNoise(s) + DropNoise(t)
  {
    if s == [] {
      assert s + t == t;
    } else {
      assert (s + t)[0] == s[0] && (s + t)[1..] == s[1..] + t;
      DropConcat(s[1..], t);
    }
  }

  lemma {:induction false} DropAll(p: string)
    requires forall i :: 0 <= i < |p| ==> IsNoise(p[i])
    ensures DropNoise(p) == []
  {
    if p != [] {
      assert forall i :: 0 <= i < |p[1..]| ==> p[1..][i] == p[i + 1];
      DropAll(p[1..]);
    }
  }

  /**
   The names that do not settle: after trimming, the first character the stem keeps is a vertical tab,
   or there is no extension and the last one is.
   */
  predicate TabAtAnEnd(human: string) {
    var h := Trim(IsSpace, human);
    var kept := Kept(Stem(h));
    kept != [] && (kept[0] == VT || (Ext(h) == [] && kept[|kept| - 1] == VT))
  }

  lemma TabShows(human: string)
    requires All(IsAscii, human)
    ensures Clean(IsSpace, Filename(human)) <==> !TabAtAnEnd(human)
  {
    var h := Trim(IsSpace, human);
    TrimmedChars(human);
    if h != "" {
      var b, e := PartsOfTrimmed(h);
      KeptInBase(Stem(h));
      TidyBounds(b);
      CharFacts();
      EndsOf(b, e, Kept(Stem(h)));
    }
  }

  lemma TabIsTheSpace(c: char)
    requires TidyChar(LowerChar(c))
    ensures IsSpace(LowerChar(c)) <==> c == VT
  {
    CharFacts();
    LowerKeepsKept(c);
  }

  lemma FrontOf(b: string, e: string, kept: string)
    requires Tidy(b) && IsExt(e) && Kept(b) == Lower(kept) && b + e != []
    ensures IsSpace((b + e)[0]) <==> kept != [] && kept[0] == VT
  {
    TidyBounds(b);
    CharFacts();
    if b != [] {
      assert TidyChar(b[0]) && (b + e)[0] == b[0];
      TabIsTheSpace(kept[0]);
    } else {
      assert (b + e)[0] == e[0];
    }
  }

  lemma BackOf(last: char, kept: string)
    requires kept != [] && last == Lower(kept)[|kept| - 1] && TidyChar(last)
    ensures IsSpace(last) <==> kept[|kept| - 1] == VT
  {
    TabIsTheSpace(kept[|kept| - 1]);
  }

  lemma EndsOf(b: string, e: string, kept: string)
    requires Tidy(b) && IsExt(e) && (e != [] ==> !IsSpace(e[|e| - 1])) && Kept(b) == Lower(kept)
    ensures Clean(IsSpace, b + e) <==> !(kept != [] && (kept[0] == VT || (e == [] && kept[|kept| - 1] == VT)))
  {
    TidyBounds(b);
    if b + e != [] { FrontOf(b, e, kept); }
    if e != [] {
      assert (b + e)[|b + e| - 1] == e[|e| - 1];
    } else if b != [] {
      assert b + e == b && TidyChar(b[|b| - 1]);
      BackOf(b[|b| - 1], kept);
    }
  }

  /** Normalising an ASCII name twice is normalising it once, if and only if it has no vertical tab at a kept end. */
  lemma FilenameIdempotentExactly(human: string)
    requires All(IsAscii, human)
    ensures Filename(Filename(human)) == Filename(human) <==> !TabAtAnEnd(human)
    ensures VT !in human ==> !TabAtAnEnd(human)
  {
    TabShows(human);
    var b, e := FilenameParts(human);
    if Clean(IsSpace, b + e) {
      Reassembled(b, e);
    } else {
      forall i | 0 <= i < |b + e| ensures IsAscii((b + e)[i]) {
        if i < |b| { assert TidyChar(b[i]); } else { assert (b + e)[i] == e[i - |b|]; }
      }
      UntrimmedIsUnstable(b + e);
    }
    if VT !in human {
      TidyEnds(b, e);
    }
  }

  lemma BaseOfTabbed()
    ensures Base(['_', VT, 'a']) == [VT, 'a']
  {
    var s, t := ['_', VT, 'a'], [VT, 'a'];
    assert TidyChar('_') && TidyChar(VT) && TidyChar('a') by { CharFacts(); }
    PassesIdentity(s);
    assert s[1..] == t;
    CleanIsFixed(IsEdge, t);
  }

  /** A vertical tab can survive one pass and not the next. */
  lemma VerticalTabUnstable()
    ensures Filename(['_', VT, 'a']) == [VT, 'a'] && Filename([VT, 'a']) != [VT, 'a']
  {
    var s, t := ['_', VT, 'a'], [VT, 'a'];
    CleanIsFixed(IsSpace, s);
    NoExt(s);
    assert Stem(s) == s;
    BaseOfTabbed();
    assert Lower([]) == [] && t + [] == t;
    UntrimmedIsUnstable(t);
  }

  lemma PassesIdentity(s: string)
    requires All(TidyChar, s) && forall i :: 0 < i < |s| ==> !(s[i - 1] == '_' && s[i] == '_')
    ensures Collapse(Safe(DropNoise(JoinHyphens(Lower(s))))) == s
  {
    CharFacts();
    assert forall i :: 0 <= i < |s| ==> TidyChar(s[i]);
    assert Lower(s) == s;
    NothingToJoin(s);
    NothingToDrop(s);
    assert Safe(s) == s;
    NothingToCollapse(s);
  }
}
