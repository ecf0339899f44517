/** String operations the three servers apply to request URLs and to the
    entry document: query stripping (`url.split('?')[0]`), splitting and
    joining on a separator, ASCII lowercasing and first-occurrence
    replacement (`String.prototype.replace` with a string pattern). */
module Text {
  import opened Wrappers

  predicate StartsWith(s: string, prefix: string) {
    |prefix| <= |s| && s[..|prefix|] == prefix
  }

  predicate EndsWith(s: string, suffix: string) {
    |suffix| <= |s| && s[|s| - |suffix|..] == suffix
  }

  /** `pat` occurs in `s` starting at index `i`. */
  predicate OccursAt(s: string, pat: string, i: nat) {
    i + |pat| <= |s| && s[i..i + |pat|] == pat
  }

  predicate Contains(s: string, pat: string) {
    exists i: nat :: i <= |s| && OccursAt(s, pat, i)
  }

  /** The part of a request URL before its first `?`; the whole URL when
      it has none. */
  function StripQuery(url: string): (path: string)
    ensures StartsWith(url, path)
    ensures '?' !in path
    ensures |path| < |url| ==> url[|path|] == '?'
  {
    if url == [] || url[0] == '?' then [] else [url[0]] + StripQuery(url[1..])
  }

  /** JavaScript's `s.split(sep)` for a one-character separator: the
      maximal separator-free pieces, in order, always at least one. */
  function Split(s: string, sep: char): (pieces: seq<string>)
    ensures |pieces| >= 1
    ensures forall i :: 0 <= i < |pieces| ==> sep !in pieces[i]
    decreases |s|
  {
    if s == [] then [""]
    else
      var rest := Split(s[1..], sep);
      if s[0] == sep then [""] + rest else [[s[0]] + rest[0]] + rest[1..]
  }

  /** JavaScript's `pieces.join(sep)`. */
  function Intercalate(pieces: seq<string>, sep: char): string
    requires |pieces| >= 1
    decreases |pieces|
  {
    if |pieces| == 1 then pieces[0] else pieces[0] + [sep] + Intercalate(pieces[1..], sep)
  }

  /** A suffix of a suffix is a suffix. */
  lemma EndsWithTransitive(s: string, mid: string, suffix: string)
    requires EndsWith(s, mid) && EndsWith(mid, suffix)
    ensures EndsWith(s, suffix)
  {
    assert s[|s| - |suffix|..] == s[|s| - |mid|..][|mid| - |suffix|..];
  }

  /** Joining the pieces of a split gives back the original string. */
  lemma {:induction false} IntercalateSplit(s: string, sep: char)
    ensures Intercalate(Split(s, sep), sep) == s
    decreases |s|
  {
    if s != [] {
      IntercalateSplit(s[1..], sep);
      var rest := Split(s[1..], sep);
      if s[0] == sep {
        assert Split(s, sep) == [""] + rest;
        assert ([""] + rest)[1..] == rest;
      } else if |rest| == 1 {
        assert Split(s, sep) == [[s[0]] + rest[0]];
      } else {
        var pieces := [[s[0]] + rest[0]] + rest[1..];
        assert pieces[1..] == rest[1..];
        assert Intercalate(rest, sep) == rest[0] + [sep] + Intercalate(rest[1..], sep);
      }
    }
  }

  /** Splitting a single separator-free piece yields that piece alone. */
  lemma {:induction false} SplitWithoutSeparator(s: string, sep: char)
    requires sep !in s
    ensures Split(s, sep) == [s]
    decreases |s|
  {
    if s != [] {
      SplitWithoutSeparator(s[1..], sep);
      assert [s[0]] + s[1..] == s;
    }
  }

  /** A separator splits the string into the pieces of each side. */
  lemma {:induction false} SplitConcat(a: string, b: string, sep: char)
    ensures Split(a + [sep] + b, sep) == Split(a, sep) + Split(b, sep)
    decreases |a|
  {
    if a == [] {
      SplitAfterSeparator(b, sep);
    } else {
      SplitConcat(a[1..], b, sep);
      SplitConcatStep(a, b, sep);
    }
  }

  /** A leading separator starts with an empty piece. */
  lemma SplitAfterSeparator(b: string, sep: char)
    ensures Split([] + [sep] + b, sep) == Split([], sep) + Split(b, sep)
  {
    var s := [] + [sep] + b;
    assert s[1..] == b;
  }

  /** One character more in front of the separator. */
  lemma SplitConcatStep(a: string, b: string, sep: char)
    requires a != []
    requires Split(a[1..] + [sep] + b, sep) == Split(a[1..], sep) + Split(b, sep)
    ensures Split(a + [sep] + b, sep) == Split(a, sep) + Split(b, sep)
  {
    var s := a + [sep] + b;
    assert s[0] == a[0];
    assert s[1..] == a[1..] + [sep] + b;
    var ra := Split(a[1..], sep);
    var sb := Split(b, sep);
    var rest := Split(s[1..], sep);
    assert rest == ra + sb;
    if a[0] == sep {
      assert Split(s, sep) == [""] + rest;
      assert Split(a, sep) == [""] + ra;
    } else {
      assert Split(s, sep) == [[a[0]] + rest[0]] + rest[1..];
      assert Split(a, sep) == [[a[0]] + ra[0]] + ra[1..];
      ExtendFirstPiece([a[0]], ra, sb);
    }
  }

  /** Extending the first piece commutes with appending more pieces. */
  lemma ExtendFirstPiece(c: string, ra: seq<string>, sb: seq<string>)
    requires |ra| >= 1
    ensures [c + (ra + sb)[0]] + (ra + sb)[1..] == ([c + ra[0]] + ra[1..]) + sb
  {
    assert (ra + sb)[0] == ra[0];
    assert (ra + sb)[1..] == ra[1..] + sb;
  }

  /** Splitting the join of separator-free pieces gives the pieces back. */
  lemma {:induction false} SplitIntercalate(pieces: seq<string>, sep: char)
    requires |pieces| >= 1
    requires forall i :: 0 <= i < |pieces| ==> sep !in pieces[i]
    ensures Split(Intercalate(pieces, sep), sep) == pieces
    decreases |pieces|
  {
    if |pieces| == 1 {
      SplitWithoutSeparator(pieces[0], sep);
    } else {
      SplitIntercalate(pieces[1..], sep);
      SplitConcat(pieces[0], Intercalate(pieces[1..], sep), sep);
      SplitWithoutSeparator(pieces[0], sep);
      assert [pieces[0]] + pieces[1..] == pieces;
    }
  }

  /** `url.split('?')[0]` is exactly the query-stripped path. */
  lemma {:induction false} StripQueryIsFirstPiece(url: string)
    ensures StripQuery(url) == Split(url, '?')[0]
    decreases |url|
  {
    if url != [] && url[0] != '?' {
      StripQueryIsFirstPiece(url[1..]);
    }
  }

  /** Stripping the query twice changes nothing more. */
  lemma StripQueryIdempotent(url: string)
    ensures StripQuery(StripQuery(url)) == StripQuery(url)
  {
    var p := StripQuery(url);
    if '?' !in p {
      StripQueryOfQueryFree(p);
    }
  }

  /** A URL without `?` is its own path. */
  lemma {:induction false} StripQueryOfQueryFree(url: string)
    requires '?' !in url
    ensures StripQuery(url) == url
    decreases |url|
  {
    if url != [] {
      StripQueryOfQueryFree(url[1..]);
    }
  }

  function LowerChar(c: char): char {
    if 'A' <= c <= 'Z' then (c as int + 32) as char else c
  }

  predicate IsUpper(c: char) {
    'A' <= c <= 'Z'
  }

  /** `toLowerCase()` restricted to ASCII letters: every capital becomes
      its small letter, every other character stays, and no capital is
      left. */
  function ToLower(s: string): (lower: string)
    ensures |lower| == |s|
    ensures forall i :: 0 <= i < |s| && IsUpper(s[i]) ==> lower[i] == (s[i] as int + 32) as char
    ensures forall i :: 0 <= i < |s| && !IsUpper(s[i]) ==> lower[i] == s[i]
    ensures forall i :: 0 <= i < |lower| ==> !IsUpper(lower[i])
  {
    seq(|s|, i requires 0 <= i < |s| => LowerChar(s[i]))
  }

  /** Lowercasing twice is lowercasing once. */
  lemma ToLowerIdempotent(s: string)
    ensures ToLower(ToLower(s)) == ToLower(s)
  {
  }

  /** The first index at or after `from` where `pat` occurs in `s`. */
  function FirstOccurrenceFrom(s: string, pat: string, from: nat): (r: Option<nat>)
    ensures r.Some? ==> from <= r.value && OccursAt(s, pat, r.value)
    ensures forall j: nat :: from <= j && (r.None? || j < r.value) ==> !OccursAt(s, pat, j)
    decreases |s| - from
  {
    if from + |pat| > |s| then None
    else if s[from..from + |pat|] == pat then Some(from)
    else FirstOccurrenceFrom(s, pat, from + 1)
  }

  /** `s.replace(pat, rep)` with a string pattern and a replacement
      without `$` patterns: only the first occurrence is replaced. */
  function ReplaceFirst(s: string, pat: string, rep: string): (r: string)
    ensures !Contains(s, pat) ==> r == s
    ensures forall i: nat {:trigger OccursAt(s, pat, i)} ::
              OccursAt(s, pat, i) && (forall j: nat :: j < i ==> !OccursAt(s, pat, j))
              ==> r == s[..i] + rep + s[i + |pat|..]
  {
    match FirstOccurrenceFrom(s, pat, 0)
    case None => s
    case Some(i) => s[..i] + rep + s[i + |pat|..]
  }

  /** Replacing the first occurrence of `pat` by a text that wraps it
      keeps `pat` in the string, now preceded by `before`, and adds it
      nowhere it was absent. */
  lemma ReplaceFirstWrapping(s: string, pat: string, before: string, after: string)
    ensures Contains(ReplaceFirst(s, pat, before + pat + after), pat) <==> Contains(s, pat)
    ensures Contains(s, pat) ==> Contains(ReplaceFirst(s, pat, before + pat + after), before + pat)
  {
    var r := ReplaceFirst(s, pat, before + pat + after);
    if Contains(s, pat) {
      var i := FirstOccurrenceFrom(s, pat, 0).value;
      var prefix := s[..i] + before;
      assert r == prefix + pat + (after + s[i + |pat|..]);
      assert OccursAt(r, pat, |prefix|);
      assert r == s[..i] + (before + pat) + (after + s[i + |pat|..]);
      assert OccursAt(r, before + pat, i);
    }
  }
}
