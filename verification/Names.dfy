/** Character classes and trimming, as Go's strings and unicode packages define them. */
module Text {
  /** unicode.IsSpace. */
  predicate IsSpace(c: char) {
    var n := c as int;
    || 0x09 <= n <= 0x0D || n == 0x20 || n == 0x85 || n == 0xA0 || n == 0x1680
    || 0x2000 <= n <= 0x200A || n == 0x2028 || n == 0x2029 || n == 0x202F || n == 0x205F || n == 0x3000
  }

  predicate IsAlnum(c: char) { 'a' <= c <= 'z' || '0' <= c <= '9' }

  predicate All(p: char -> bool, s: string) {
    forall i :: 0 <= i < |s| ==> p(s[i])
  }

  function TrimLeft(p: char -> bool, s: string): string {
    if s != [] && p(s[0]) then TrimLeft(p, s[1..]) else s
  }

  function TrimRight(p: char -> bool, s: string): string {
    if s != [] && p(s[|s| - 1]) then TrimRight(p, s[..|s| - 1]) else s
  }

  function Trim(p: char -> bool, s: string): string {
    TrimRight(p, TrimLeft(p, s))
  }

  /** A string with nothing to trim at either end. */
  predicate Clean(p: char -> bool, s: string) {
    s == [] || (!p(s[0]) && !p(s[|s| - 1]))
  }

  /** Trimming takes a prefix and a suffix of trimmable characters and leaves a clean middle. */
  lemma {:induction false} TrimLeftSplits(p: char -> bool, s: string) returns (n: nat)
    ensures n <= |s| && TrimLeft(p, s) == s[n..] && All(p, s[..n])
    ensures n < |s| ==> !p(s[n])
    decreases |s|
  {
    if s != [] && p(s[0]) {
      var m := TrimLeftSplits(p, s[1..]);
      n := m + 1;
      assert s[1..][m..] == s[n..];
      forall i | 0 <= i < n ensures p(s[..n][i]) {
        if i > 0 { assert s[i] == s[1..][..m][i - 1]; }
      }
    } else {
      n := 0;
    }
  }

  lemma {:induction false} TrimRightSplits(p: char -> bool, s: string) returns (n: nat)
    ensures n <= |s| && TrimRight(p, s) == s[..n] && All(p, s[n..])
    ensures n > 0 ==> !p(s[n - 1])
    decreases |s|
  {
    if s != [] && p(s[|s| - 1]) {
      var init := s[..|s| - 1];
      n := TrimRightSplits(p, init);
      assert init[..n] == s[..n];
      forall i | 0 <= i < |s[n..]| ensures p(s[n..][i]) {
        if n + i < |init| { assert s[n + i] == init[n..][i]; }
      }
    } else {
      n := |s|;
    }
  }

  lemma TrimIsClean(p: char -> bool, s: string)
    ensures Clean(p, Trim(p, s))
    ensures forall c :: c in Trim(p, s) ==> c in s
  {
    var m := TrimLeftSplits(p, s);
    var n := TrimRightSplits(p, s[m..]);
  }

  lemma CleanIsFixed(p: char -> bool, s: string)
    requires Clean(p, s)
    ensures Trim(p, s) == s && TrimLeft(p, s) == s && TrimRight(p, s) == s
  {
  }
}

/**
 Names derived from free text: entity slugs, mart note names and document ids
 (internal/osearch/docs.go, internal/mart/render.go).
 */
module Names {
  import opened Text
  import Filenames

  // ---- Slugs ----

  /** Keep [a-z0-9]; turn every run of anything else into one dash. */
  function Dashed(s: string, prevDash: bool): string {
    if s == [] then []
    else if IsAlnum(s[0]) then [s[0]] + Dashed(s[1..], false)
    else if prevDash then Dashed(s[1..], true)
    else ['-'] + Dashed(s[1..], true)
  }

  const DASH: char -> bool := c => c == '-'

  function Slug(s: string): string {
    Trim(DASH, Dashed(s, false))
  }

  /** What a slug looks like: [a-z0-9-], no leading, trailing or doubled dash. */
  predicate IsSlug(s: string) {
    && (forall i :: 0 <= i < |s| ==> 'a' <= s[i] <= 'z' || '0' <= s[i] <= '9' || s[i] == '-')
    && (forall i :: 0 < i < |s| ==> !(s[i - 1] == '-' && s[i] == '-'))
    && Clean(DASH, s)
  }

  /** Only [a-z0-9-], never two dashes in a row. */
  predicate Spaced(s: string) {
    && (forall i :: 0 <= i < |s| ==> IsAlnum(s[i]) || s[i] == '-')
    && (forall i :: 0 < i < |s| ==> !(s[i - 1] == '-' && s[i] == '-'))
  }

  lemma {:induction false} DashedIsSpaced(s: string, prevDash: bool)
    ensures Spaced(Dashed(s, prevDash))
    ensures prevDash && Dashed(s, prevDash) != [] ==> Dashed(s, prevDash)[0] != '-'
  {
    if s != [] {
      DashedIsSpaced(s[1..], !IsAlnum(s[0]));
    }
  }

  lemma {:induction false} SpacedIsFixed(s: string, prevDash: bool)
    requires Spaced(s) && (prevDash && s != [] ==> s[0] != '-')
    ensures Dashed(s, prevDash) == s
  {
    if s != [] {
      assert forall i :: 0 <= i < |s[1..]| ==> s[1..][i] == s[i + 1];
      SpacedIsFixed(s[1..], s[0] == '-');
    }
  }

  lemma SubIsSpaced(s: string, a: nat, b: nat)
    requires Spaced(s) && a <= b <= |s|
    ensures Spaced(s[a..b])
  {
    assert forall i :: 0 <= i < b - a ==> s[a..b][i] == s[a + i];
  }

  lemma TrimKeepsSpaced(s: string)
    requires Spaced(s)
    ensures IsSlug(Trim(DASH, s))
  {
    var m := TrimLeftSplits(DASH, s);
    var t := s[m..];
    var n := TrimRightSplits(DASH, t);
    SubIsSpaced(s, m, |s|);
    SubIsSpaced(t, 0, n);
    TrimIsClean(DASH, s);
  }

  /** Slugs are exactly the results of Slug, and each is its own slug. */
  lemma SlugCanonical(s: string)
    ensures IsSlug(Slug(s))
    ensures IsSlug(s) <==> Slug(s) == s
    ensures Slug(Slug(s)) == Slug(s)
  {
    DashedIsSpaced(s, false);
    TrimKeepsSpaced(Dashed(s, false));
    SlugFixed(Slug(s));
    if IsSlug(s) { SlugFixed(s); }
  }

  lemma SlugFixed(s: string)
    requires IsSlug(s)
    ensures Slug(s) == s
  {
    SpacedIsFixed(s, false);
    CleanIsFixed(DASH, s);
  }

  /** The letters and digits of a text, in order. */
  function Letters(s: string): string {
    if s == [] then [] else (if IsAlnum(s[0]) then [s[0]] else []) + Letters(s[1..])
  }

  lemma {:induction false} LettersOfDashed(s: string, prevDash: bool)
    ensures Letters(Dashed(s, prevDash)) == Letters(s)
  {
    if s != [] {
      var d := Dashed(s, prevDash);
      LettersOfDashed(s[1..], !IsAlnum(s[0]));
      if IsAlnum(s[0]) || !prevDash {
        assert d[1..] == Dashed(s[1..], !IsAlnum(s[0]));
      }
    }
  }

  lemma {:induction false} LettersConcat(s: string, t: string)
    ensures Letters(s + t) == Letters(s) + Letters(t)
  {
    if s == [] {
      assert s + t == t;
    } else {
      var head := if IsAlnum(s[0]) then [s[0]] else [];
      assert (s + t)[0] == s[0] && (s + t)[1..] == s[1..] + t;
      LettersConcat(s[1..], t);
      assert Letters(s) == head + Letters(s[1..]);
      assert Letters(s + t) == head + Letters(s[1..] + t);
    }
  }

  lemma {:induction false} NoLetters(s: string)
    requires All(DASH, s)
    ensures Letters(s) == []
  {
    if s != [] {
      assert forall i :: 0 <= i < |s[1..]| ==> s[1..][i] == s[i + 1];
      NoLetters(s[1..]);
    }
  }

  /** A slug keeps every letter and digit of the text, in order: only separators change. */
  lemma SlugKeepsLetters(s: string)
    ensures Letters(Slug(s)) == Letters(s)
  {
    var d := Dashed(s, false);
    LettersOfDashed(s, false);
    var m := TrimLeftSplits(DASH, d);
    var n := TrimRightSplits(DASH, d[m..]);
    var head, rest := d[..m], d[m..];
    var mid, tail := rest[..n], rest[n..];
    assert d == head + rest && rest == mid + tail;
    LettersConcat(head, rest);
    LettersConcat(mid, tail);
    NoLetters(head);
    NoLetters(tail);
    assert [] + Letters(rest) == Letters(rest) && Letters(mid) + [] == Letters(mid);
  }

  /** The first character's part of a dashed text. */
  function DashedHead(c: char, prevDash: bool): string {
    if IsAlnum(c) then [c] else if prevDash then [] else ['-']
  }

  lemma DashedTurn(s: string, prevDash: bool)
    requires s != []
    ensures Dashed(s, prevDash) == DashedHead(s[0], prevDash) + Dashed(s[1..], !IsAlnum(s[0]))
  {
    assert [] + Dashed(s[1..], true) == Dashed(s[1..], true);
  }

  lemma {:induction false} DashedConcat(a: string, b: string, prevDash: bool)
    ensures Dashed(a + b, prevDash) ==
            Dashed(a, prevDash) + Dashed(b, if a == [] then prevDash else !IsAlnum(a[|a| - 1]))
  {
    if a == [] {
      assert a + b == b && [] + Dashed(b, prevDash) == Dashed(b, prevDash);
    } else {
      var rest := a[1..];
      assert (a + b)[0] == a[0] && (a + b)[1..] == rest + b;
      DashedTurn(a, prevDash);
      DashedTurn(a + b, prevDash);
      DashedConcat(rest, b, !IsAlnum(a[0]));
    }
  }

  predicate NoneAlnum(s: string) { forall i :: 0 <= i < |s| ==> !IsAlnum(s[i]) }

  lemma {:induction false} DashedSeparator(sep: string, prevDash: bool)
    requires NoneAlnum(sep)
    ensures Dashed(sep, prevDash) == if prevDash || sep == [] then [] else "-"
  {
    if sep != [] {
      assert forall i :: 0 <= i < |sep[1..]| ==> sep[1..][i] == sep[i + 1];
      DashedSeparator(sep[1..], true);
    }
  }

  /** Whatever stands between two words, of any length, becomes one dash. */
  lemma SlugJoinsWords(u: string, sep: string, v: string)
    requires IsSlug(u) && u != "" && NoneAlnum(sep) && sep != "" && v != ""
    requires forall i :: 0 <= i < |v| ==> IsAlnum(v[i])
    ensures Slug(u + sep + v) == u + "-" + v
  {
    DashedConcat(u + sep, v, false);
    DashedConcat(u, sep, false);
    SpacedIsFixed(u, false);
    DashedSeparator(sep, false);
    assert (u + sep)[|u + sep| - 1] == sep[|sep| - 1];
    SpacedIsFixed(v, true);
    CleanIsFixed(DASH, u + "-" + v);
  }

  /** strings.ToLower on ASCII text. */
  ghost predicate AsciiLaw(lower: string -> string) {
    forall s :: Ascii(s) ==> lower(s) == Filenames.Lower(s)
  }

  predicate Ascii(s: string) { forall i :: 0 <= i < |s| ==> s[i] as int < 128 }

  lemma {:induction false} LoweredSpaces(s: string)
    requires All(IsSpace, s)
    ensures Letters(Filenames.Lower(s)) == []
  {
    if s != [] {
      assert forall i :: 0 <= i < |s[1..]| ==> s[1..][i] == s[i + 1];
      LoweredSpaces(s[1..]);
      assert Filenames.Lower(s)[1..] == Filenames.Lower(s[1..]);
    }
  }

  lemma LoweredConcat(s: string, t: string)
    ensures Letters(Filenames.Lower(s + t)) == Letters(Filenames.Lower(s)) + Letters(Filenames.Lower(t))
  {
    assert Filenames.Lower(s + t) == Filenames.Lower(s) + Filenames.Lower(t);
    LettersConcat(Filenames.Lower(s), Filenames.Lower(t));
  }

  lemma LoweredTrim(s: string)
    ensures Letters(Filenames.Lower(Trim(IsSpace, s))) == Letters(Filenames.Lower(s))
    ensures Ascii(s) ==> Ascii(Trim(IsSpace, s))
  {
    var m := TrimLeftSplits(IsSpace, s);
    var t := s[m..];
    var n := TrimRightSplits(IsSpace, t);
    assert s == s[..m] + t && t == t[..n] + t[n..];
    LoweredConcat(s[..m], t);
    LoweredConcat(t[..n], t[n..]);
    LoweredSpaces(s[..m]);
    LoweredSpaces(t[n..]);
    assert [] + Letters(Filenames.Lower(t)) == Letters(Filenames.Lower(t));
    assert Letters(Filenames.Lower(t[..n])) + [] == Letters(Filenames.Lower(t[..n]));
  }

  /** An entity's slug has the letters and digits of its name, in lower case and in order. */
  lemma EntitySlugKeepsLetters(lower: string -> string, name: string)
    requires AsciiLaw(lower) && Ascii(name)
    ensures Letters(EntitySlugOf(lower, name)) == Letters(Filenames.Lower(name))
  {
    LoweredTrim(name);
    SlugKeepsLetters(lower(Trim(IsSpace, name)));
  }

  /** strings.ToLower leaves text in [a-z0-9-] as it is; nothing more is assumed of it. */
  ghost predicate LowerLaw(lower: string -> string) {
    forall s :: (forall i :: 0 <= i < |s| ==> IsAlnum(s[i]) || s[i] == '-') ==> lower(s) == s
  }

  function EntitySlugOf(lower: string -> string, name: string): string {
    Slug(lower(Trim(IsSpace, name)))
  }

  lemma DashedStep(b: string, s: string, i: nat, prevDash: bool)
    requires i < |s|
    ensures b + Dashed(s[i..], prevDash) ==
            if IsAlnum(s[i]) then (b + [s[i]]) + Dashed(s[i + 1..], false)
            else if prevDash then b + Dashed(s[i + 1..], true)
            else (b + ['-']) + Dashed(s[i + 1..], true)
  {
    assert s[i..][1..] == s[i + 1..] && s[i..][0] == s[i];
    var rest := Dashed(s[i + 1..], !IsAlnum(s[i]));
    assert (b + [s[i]]) + rest == b + ([s[i]] + rest);
    assert (b + ['-']) + rest == b + (['-'] + rest);
  }

  /** EntitySlug: one pass with a builder and a prevDash flag, then a trim. */
  method EntitySlug(lower: string -> string, name: string) returns (slug: string)
    ensures slug == EntitySlugOf(lower, name)
  {
    var s := lower(Trim(IsSpace, name));
    var b: string, prevDash, i := [], false, 0;
    assert s[0..] == s;
    while i < |s|
      invariant 0 <= i <= |s|
      invariant b + Dashed(s[i..], prevDash) == Dashed(s, false)
    {
      DashedStep(b, s, i, prevDash);
      if IsAlnum(s[i]) {
        b, prevDash := b + [s[i]], false;
      } else if !prevDash {
        b, prevDash := b + ['-'], true;
      }
      i := i + 1;
    }
    assert s[|s|..] == [] && b + [] == b;
    slug := Trim(DASH, b);
  }

  /** Running the normaliser on its own output changes nothing. */
  lemma EntitySlugIdempotent(lower: string -> string, name: string)
    requires LowerLaw(lower)
    ensures IsSlug(EntitySlugOf(lower, name))
    ensures EntitySlugOf(lower, EntitySlugOf(lower, name)) == EntitySlugOf(lower, name)
  {
    SlugCanonical(lower(Trim(IsSpace, name)));
    SlugIsItsOwnEntitySlug(lower, EntitySlugOf(lower, name));
  }

  lemma SlugIsItsOwnEntitySlug(lower: string -> string, slug: string)
    requires LowerLaw(lower) && IsSlug(slug)
    ensures EntitySlugOf(lower, slug) == slug
  {
    SlugFixed(slug);
    CleanIsFixed(IsSpace, slug);
    assert lower(slug) == slug;
  }

  // ---- Mart note names ----

  /** The fields a note's name is made from. */
  datatype NameSource = NameSource(title: string, originalFilename: string, sha: string)

  function DisplayTitle(r: NameSource): string {
    var t := Trim(IsSpace, r.title);
    if (t == "" || t == r.sha) && Trim(IsSpace, r.originalFilename) != "" then r.originalFilename
    else if t == "" then "untitled"
    else t
  }

  function ShaPrefix(sha: string): string {
    if |sha| > 12 then sha[..12] else sha
  }

  function NoteSlug(lower: string -> string, r: NameSource): string {
    var slug := Slug(lower(DisplayTitle(r)));
    if slug == "" then "untitled"
    else if |slug| > 60 then TrimRight(DASH, slug[..60])
    else slug
  }

  /** slug(title)-sha[:12].md */
  function NoteName(lower: string -> string, r: NameSource): string {
    NoteSlug(lower, r) + "-" + ShaPrefix(r.sha) + ".md"
  }

  predicate DashFree(s: string) {
    forall i :: 0 <= i < |s| ==> s[i] != '-'
  }

  lemma DashSplitUnique(a: string, p: string, b: string, q: string)
    requires DashFree(p) && DashFree(q)
    requires a + "-" + p == b + "-" + q
    ensures p == q && a == b
  {
    var x, y := a + "-" + p, b + "-" + q;
    assert x[|a|] == '-' && y[|b|] == '-';
    assert forall i :: |a| < i < |x| ==> x[i] == p[i - |a| - 1] != '-';
    assert forall i :: |b| < i < |y| ==> y[i] == q[i - |b| - 1] != '-';
    assert |a| == |b| && p == x[|a| + 1..] && q == y[|b| + 1..] && a == x[..|a|] && b == y[..|b|];
  }

  /** Notes of records with different SHA prefixes never share a name, whatever their titles. */
  lemma NoteNamesDistinct(lower: string -> string, r: NameSource, q: NameSource)
    requires DashFree(ShaPrefix(r.sha)) && DashFree(ShaPrefix(q.sha))
    requires ShaPrefix(r.sha) != ShaPrefix(q.sha)
    ensures NoteName(lower, r) != NoteName(lower, q)
  {
    if NoteName(lower, r) == NoteName(lower, q) {
      var a, b := NoteSlug(lower, r) + "-" + ShaPrefix(r.sha), NoteSlug(lower, q) + "-" + ShaPrefix(q.sha);
      assert NoteName(lower, r)[..|a|] == a && NoteName(lower, q)[..|b|] == b;
      DashSplitUnique(NoteSlug(lower, r), ShaPrefix(r.sha), NoteSlug(lower, q), ShaPrefix(q.sha));
    }
  }

  /** A note's slug is a non-empty slug of at most 60 characters. */
  lemma NoteSlugIsSlug(lower: string -> string, r: NameSource)
    ensures IsSlug(NoteSlug(lower, r)) && 0 < |NoteSlug(lower, r)| <= 60
  {
    var slug := Slug(lower(DisplayTitle(r)));
    SlugCanonical(lower(DisplayTitle(r)));
    if |slug| > 60 {
      var head := slug[..60];
      SubIsSpaced(slug, 0, 60);
      var n := TrimRightSplits(DASH, head);
      SubIsSpaced(head, 0, n);
      assert head[0] == slug[0] != '-';
      if n == 0 { assert head[n..][0] == head[0]; }
    }
  }

  /** The field a note is named after: a title that is more than the hash, else the file's name, else the hash. */
  function NamedAfter(r: NameSource): string {
    if Blank(r.title) && Blank(r.originalFilename) then "untitled"
    else if !Blank(r.title) && (Trim(IsSpace, r.title) != r.sha || Blank(r.originalFilename)) then r.title
    else r.originalFilename
  }

  predicate Blank(s: string) { All(IsSpace, s) }

  lemma TrimBlankExactly(s: string)
    ensures Trim(IsSpace, s) == "" <==> Blank(s)
  {
    var m := TrimLeftSplits(IsSpace, s);
    var n := TrimRightSplits(IsSpace, s[m..]);
    assert s == s[..m] + s[m..];
    assert m < |s| ==> !IsSpace(s[m]);
  }

  /**
   A note's slug has the letters and digits of what it is named after, in lower case and in order, all of
   them unless the slug would be longer than sixty characters; "untitled" stands for none.
   */
  lemma NoteSlugTells(lower: string -> string, r: NameSource)
    requires AsciiLaw(lower) && Ascii(r.title) && Ascii(r.originalFilename)
    ensures var letters, slug := Letters(Filenames.Lower(NamedAfter(r))), NoteSlug(lower, r);
            && (letters == "" ==> slug == "untitled")
            && (letters != "" ==> Letters(slug) <= letters)
            && (letters != "" && |Slug(lower(DisplayTitle(r)))| <= 60 ==> Letters(slug) == letters)
  {
    var t := lower(DisplayTitle(r));
    DisplayLetters(lower, r);
    SlugKeepsLetters(t);
    NoLettersNoSlug(t);
    if |Slug(t)| > 60 { CutLetters(Slug(t)); }
  }

  lemma DisplayLetters(lower: string -> string, r: NameSource)
    requires AsciiLaw(lower) && Ascii(r.title) && Ascii(r.originalFilename)
    ensures Letters(lower(DisplayTitle(r))) == Letters(Filenames.Lower(NamedAfter(r)))
  {
    TrimBlankExactly(r.title);
    TrimBlankExactly(r.originalFilename);
    LoweredTrim(r.title);
  }

  lemma CutLetters(slug: string)
    requires |slug| > 60
    ensures Letters(TrimRight(DASH, slug[..60])) <= Letters(slug)
  {
    var n := TrimRightSplits(DASH, slug[..60]);
    assert slug[..60][..n] == slug[..n];
    LettersPrefix(slug, n);
  }

  lemma LettersPrefix(s: string, n: nat)
    requires n <= |s|
    ensures Letters(s[..n]) <= Letters(s)
  {
    assert s == s[..n] + s[n..];
    LettersConcat(s[..n], s[n..]);
  }

  /** A slug is empty exactly if the text has no letter or digit. */
  lemma NoLettersNoSlug(s: string)
    ensures Slug(s) == "" <==> Letters(s) == ""
  {
    SlugCanonical(s);
    SlugKeepsLetters(s);
    var slug := Slug(s);
    if slug != "" { assert IsAlnum(slug[0]); }
  }

  // ---- Document ids ----

  function DocID(profile: string, vault: string, key: string): string {
    profile + ":" + vault + ":" + key
  }

  predicate ColonFree(s: string) {
    forall i :: 0 <= i < |s| ==> s[i] != ':'
  }

  lemma ColonSplitUnique(a: string, p: string, b: string, q: string)
    requires ColonFree(a) && ColonFree(b)
    requires a + ":" + p == b + ":" + q
    ensures a == b && p == q
  {
    var x, y := a + ":" + p, b + ":" + q;
    assert x[|a|] == ':' && y[|b|] == ':';
    assert forall i :: 0 <= i < |a| ==> x[i] == a[i] != ':';
    assert forall i :: 0 <= i < |b| ==> y[i] == b[i] != ':';
    assert |a| == |b| && a == x[..|a|] && b == y[..|b|] && p == x[|a| + 1..] && q == y[|b| + 1..];
  }

  /** Two records share a document id only if they are the same record, for colon-free scopes. */
  lemma DocIDInjective(p: string, v: string, k: string, p': string, v': string, k': string)
    requires ColonFree(p) && ColonFree(v) && ColonFree(p') && ColonFree(v')
    requires DocID(p, v, k) == DocID(p', v', k')
    ensures p == p' && v == v' && k == k'
  {
    assert DocID(p, v, k) == p + ":" + (v + ":" + k);
    assert DocID(p', v', k') == p' + ":" + (v' + ":" + k');
    ColonSplitUnique(p, v + ":" + k, p', v' + ":" + k');
    ColonSplitUnique(v, k, v', k');
  }

  /** A colon in a vault name makes two tenants share a document. */
  lemma DocIDCollides()
    ensures DocID("a", "b:c", "d") == DocID("a:b", "c", "d")
  {
    assert DocID("a", "b:c", "d") == "a:b:c:d" == DocID("a:b", "c", "d");
  }
}
