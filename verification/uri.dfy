/** Percent-decoding as JavaScript's `decodeURIComponent` performs it, up
    to the one question Express asks of it: does it throw? It accepts a
    string exactly when every `%` starts an escape `%XX` and the bytes of
    each run of escapes that a lead byte opens form one well-formed UTF-8
    sequence, as section 4 of RFC 3629 defines them. */
module Uri {
  import opened Wrappers

  predicate IsHexDigit(c: char) {
    '0' <= c <= '9' || 'a' <= c <= 'f' || 'A' <= c <= 'F'
  }

  function HexValue(c: char): (v: nat)
    requires IsHexDigit(c)
    ensures v < 16
  {
    if '0' <= c <= '9' then c as int - '0' as int
    else if 'a' <= c <= 'f' then c as int - 'a' as int + 10
    else c as int - 'A' as int + 10
  }

  /** `s` holds an escape `%XX` at index `i`. */
  predicate EscapeAt(s: string, i: nat) {
    i + 2 < |s| && s[i] == '%' && IsHexDigit(s[i + 1]) && IsHexDigit(s[i + 2])
  }

  /** The byte an escape stands for. */
  function EscapedByte(s: string, i: nat): (b: nat)
    requires EscapeAt(s, i)
    ensures b < 256
  {
    HexValue(s[i + 1]) * 16 + HexValue(s[i + 2])
  }

  /** The bytes of `n` consecutive escapes from index `i`, or none when
      one of them is missing. */
  function EscapedBytes(s: string, i: nat, n: nat): (r: Option<seq<nat>>)
    ensures r.Some? ==> |r.value| == n
    ensures r.Some? && n > 0 ==> i + 3 * n <= |s|
    ensures r.Some? && n > 0 ==> EscapeAt(s, i) && r.value[0] == EscapedByte(s, i)
    decreases n
  {
    if n == 0 then Some([])
    else if !EscapeAt(s, i) then None
    else match EscapedBytes(s, i + 3, n - 1)
      case None => None
      case Some(rest) => Some([EscapedByte(s, i)] + rest)
  }

  /** The length of the UTF-8 sequence a byte of 128 or more leads: 0 when
      it cannot lead one (a continuation byte, or more than four leading
      one bits). */
  function SequenceLength(b: nat): nat {
    if b < 0xC0 then 0
    else if b < 0xE0 then 2
    else if b < 0xF0 then 3
    else if b < 0xF8 then 4
    else 0
  }

  predicate IsContinuation(b: nat) {
    0x80 <= b < 0xC0
  }

  /** A multi-byte UTF-8 sequence that encodes a code point: no overlong
      form, no surrogate, nothing beyond U+10FFFF. */
  predicate WellFormedSequence(bs: seq<nat>) {
    && 2 <= |bs| <= 4
    && (forall j :: 1 <= j < |bs| ==> IsContinuation(bs[j]))
    && (|bs| == 2 ==> 0xC2 <= bs[0] < 0xE0)
    && (|bs| == 3 ==> 0xE0 <= bs[0] < 0xF0
                      && (bs[0] == 0xE0 ==> 0xA0 <= bs[1])
                      && (bs[0] == 0xED ==> bs[1] < 0xA0))
    && (|bs| == 4 ==> 0xF0 <= bs[0] <= 0xF4
                      && (bs[0] == 0xF0 ==> 0x90 <= bs[1])
                      && (bs[0] == 0xF4 ==> bs[1] < 0x90))
  }

  /** Whether `decodeURIComponent` accepts `s` from index `i` on. */
  predicate DecodesFrom(s: string, i: nat)
    decreases if i < |s| then |s| - i else 0
  {
    if i >= |s| then true
    else if s[i] != '%' then DecodesFrom(s, i + 1)
    else if !EscapeAt(s, i) then false
    else if EscapedByte(s, i) < 0x80 then DecodesFrom(s, i + 3)
    else
      var n := SequenceLength(EscapedByte(s, i));
      && n != 0
      && EscapedBytes(s, i, n).Some?
      && WellFormedSequence(EscapedBytes(s, i, n).value)
      && DecodesFrom(s, i + 3 * n)
  }

  /** `decodeURIComponent(s)` returns instead of throwing a `URIError`. */
  predicate Decodes(s: string) {
    DecodesFrom(s, 0)
  }

  /** A string without `%` always decodes. */
  lemma DecodesWithoutPercent(s: string)
    requires '%' !in s
    ensures Decodes(s)
  {
    DecodesFromWithoutPercent(s, 0);
  }

  lemma {:induction false} DecodesFromWithoutPercent(s: string, i: nat)
    requires forall j :: i <= j < |s| ==> s[j] != '%'
    ensures DecodesFrom(s, i)
    decreases if i < |s| then |s| - i else 0
  {
    if i < |s| {
      DecodesFromWithoutPercent(s, i + 1);
    }
  }

  /** In a string that decodes, every `%` starts an escape `%XX`. */
  lemma PercentStartsEscape(s: string)
    requires Decodes(s)
    ensures forall j :: 0 <= j < |s| && s[j] == '%' ==> EscapeAt(s, j)
  {
    PercentStartsEscapeFrom(s, 0);
  }

  lemma {:induction false} PercentStartsEscapeFrom(s: string, i: nat)
    requires DecodesFrom(s, i)
    ensures forall j :: i <= j < |s| && s[j] == '%' ==> EscapeAt(s, j)
    decreases if i < |s| then |s| - i else 0
  {
    if i < |s| {
      if s[i] != '%' {
        PercentStartsEscapeFrom(s, i + 1);
      } else if EscapedByte(s, i) < 0x80 {
        PercentStartsEscapeFrom(s, i + 3);
      } else {
        var n := SequenceLength(EscapedByte(s, i));
        EscapeRunHasOnlyEscapes(s, i, n);
        PercentStartsEscapeFrom(s, i + 3 * n);
      }
    }
  }

  /** Inside a run of escapes, every `%` starts one of them. */
  lemma {:induction false} EscapeRunHasOnlyEscapes(s: string, i: nat, n: nat)
    requires EscapedBytes(s, i, n).Some?
    ensures forall j :: i <= j < i + 3 * n && s[j] == '%' ==> EscapeAt(s, j)
    decreases n
  {
    if n > 0 {
      EscapeRunHasOnlyEscapes(s, i + 3, n - 1);
    }
  }

  /** Malformed escapes the router's catch-all rejects: a lone `%`, a
      lead byte without its continuation, a non-hexadecimal digit. */
  lemma MalformedEscapes()
    ensures !Decodes("/%")
    ensures !Decodes("/%E0")
    ensures !Decodes("/a%zz")
  {
    assert !EscapeAt("/%", 1);
    assert EscapedByte("/%E0", 1) == 0xE0;
    assert EscapedBytes("/%E0", 1, 3).None? by {
      assert !EscapeAt("/%E0", 4);
    }
    assert !EscapeAt("/a%zz", 2);
  }

  /** Escapes of ASCII bytes and of a two-byte character decode. */
  lemma WellFormedEscapes()
    ensures Decodes("/a%20b")
    ensures Decodes("/%C3%A9")
  {
    var s := "/a%20b";
    assert EscapedByte(s, 2) == 0x20;
    assert DecodesFrom(s, 5);
    var t := "/%C3%A9";
    assert EscapeAt(t, 1) && EscapeAt(t, 4);
    assert EscapedByte(t, 1) == 0xC3;
    assert EscapedByte(t, 4) == 0xA9;
    assert EscapedBytes(t, 7, 0) == Some([]);
    assert EscapedBytes(t, 4, 1) == Some([EscapedByte(t, 4)] + []);
    assert EscapedBytes(t, 1, 2) == Some([EscapedByte(t, 1)] + EscapedBytes(t, 4, 1).value);
    assert EscapedBytes(t, 1, 2).value == [0xC3, 0xA9];
    assert DecodesFrom(t, 7);
  }
}
