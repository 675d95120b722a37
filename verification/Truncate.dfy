/** `_truncate_result`: cut a text to a byte limit on a character boundary,
    preferring the end of a line, then a blank.

    A text is a sequence of Unicode scalar values, its encoding follows
    section 3 of RFC 3629. */
module Truncate {

  type Byte = b: int | 0 <= b < 256

  type Rune = r: int | 0 <= r < 0xD800 || 0xE000 <= r < 0x110000

  const NEWLINE: Rune := 10
  const BLANK: Rune := 32

  // ---- UTF-8 ----

  function EncodeOne(r: Rune): seq<Byte> {
    if r < 0x80 then [r]
    else if r < 0x800 then [0xC0 + r / 0x40, 0x80 + r % 0x40]
    else if r < 0x10000 then [0xE0 + r / 0x1000, 0x80 + r / 0x40 % 0x40, 0x80 + r % 0x40]
    else [0xF0 + r / 0x40000, 0x80 + r / 0x1000 % 0x40, 0x80 + r / 0x40 % 0x40, 0x80 + r % 0x40]
  }

  function Encode(text: seq<Rune>): seq<Byte> {
    if text == [] then [] else EncodeOne(text[0]) + Encode(text[1..])
  }

  predicate IsTail(b: Byte) {
    0x80 <= b < 0xC0
  }

  /** The character at the front of the bytes, if they begin with a well-formed one. */
  function Front(bytes: seq<Byte>): (r: int)
    ensures r == -1 || 0 <= r < 0xD800 || 0xE000 <= r < 0x110000
    ensures r != -1 ==> |EncodeOne(r)| <= |bytes|
  {
    if |bytes| >= 1 && bytes[0] < 0x80 then bytes[0]
    else if |bytes| >= 2 && 0xC2 <= bytes[0] < 0xE0 && IsTail(bytes[1]) then
      (bytes[0] as int - 0xC0) * 0x40 + (bytes[1] as int - 0x80)
    else if |bytes| >= 3 && 0xE0 <= bytes[0] < 0xF0 && IsTail(bytes[1]) && IsTail(bytes[2]) then
      var r := (bytes[0] as int - 0xE0) * 0x1000 + (bytes[1] as int - 0x80) * 0x40 + (bytes[2] as int - 0x80);
      if r < 0x800 || 0xD800 <= r < 0xE000 then -1 else r
    else if |bytes| >= 4 && 0xF0 <= bytes[0] < 0xF5 && IsTail(bytes[1]) && IsTail(bytes[2]) && IsTail(bytes[3]) then
      var r := (bytes[0] as int - 0xF0) * 0x40000 + (bytes[1] as int - 0x80) * 0x1000 + (bytes[2] as int - 0x80) * 0x40 + (bytes[3] as int - 0x80);
      if r < 0x10000 || 0x110000 <= r then -1 else r
    else -1
  }

  /** Decoding with errors="ignore": drop each byte that begins no character. */
  function DecodeIgnore(bytes: seq<Byte>): seq<Rune>
    decreases |bytes|
  {
    if bytes == [] then []
    else
      var r := Front(bytes);
      if r == -1 then DecodeIgnore(bytes[1..])
      else
        [r] + DecodeIgnore(bytes[|EncodeOne(r)|..])
  }

  /** A character is read back from the front of any bytes that begin with its encoding. */
  lemma FrontOfEncoded(r: Rune, rest: seq<Byte>)
    ensures Front(EncodeOne(r) + rest) == r
  {
    if r < 0x80 {
    } else if r < 0x800 {
    } else if r < 0x10000 {
      Recombine3(r);
    } else {
      Recombine4(r);
    }
  }

  lemma Recombine3(r: int)
    ensures r == r / 0x1000 * 0x1000 + r / 0x40 % 0x40 * 0x40 + r % 0x40
  {
    assert r / 0x40 / 0x40 == r / 0x1000;
  }

  lemma Recombine4(r: int)
    ensures r == r / 0x40000 * 0x40000 + r / 0x1000 % 0x40 * 0x1000 + r / 0x40 % 0x40 * 0x40 + r % 0x40
  {
    Recombine3(r);
    assert r / 0x1000 / 0x40 == r / 0x40000;
  }

  /** A cut that falls inside a character leaves no character. */
  lemma {:induction false} CutCharacterVanishes(r: Rune, n: nat, i: nat)
    requires i <= n < |EncodeOne(r)|
    ensures DecodeIgnore(EncodeOne(r)[i..n]) == []
    decreases n - i
  {
    if i < n {
      var bytes := EncodeOne(r)[i..n];
      assert Front(bytes) == -1;
      assert bytes[1..] == EncodeOne(r)[i + 1..n];
      CutCharacterVanishes(r, n, i + 1);
    }
  }

  /** Encoding is undone by decoding. */
  lemma {:induction false} RoundTrip(text: seq<Rune>)
    ensures DecodeIgnore(Encode(text)) == text
  {
    if text != [] {
      FrontOfEncoded(text[0], Encode(text[1..]));
      assert Encode(text)[|EncodeOne(text[0])|..] == Encode(text[1..]);
      RoundTrip(text[1..]);
    }
  }

  /** p is the longest prefix of the text that fits in n bytes. */
  ghost predicate LongestFit(text: seq<Rune>, n: nat, p: seq<Rune>) {
    p <= text && |Encode(p)| <= n && (|p| < |text| ==> |Encode(text[..|p| + 1])| > n)
  }

  /** Decoding a cut encoding, ignoring errors, gives the longest prefix of
      whole characters that fits. */
  lemma {:induction false} DecodeCut(text: seq<Rune>, n: nat)
    requires n <= |Encode(text)|
    ensures LongestFit(text, n, DecodeIgnore(Encode(text)[..n]))
  {
    if text != [] {
      var first := EncodeOne(text[0]);
      var bytes := Encode(text)[..n];
      if n < |first| {
        assert bytes == first[0..n];
        CutCharacterVanishes(text[0], n, 0);
        assert text[..1] == [text[0]] && Encode([text[0]]) == first + [];
      } else {
        var rest := Encode(text[1..])[..n - |first|];
        assert bytes == first + rest;
        DecodeFirst(text[0], rest);
        DecodeCut(text[1..], n - |first|);
        FitsLonger(text, n, DecodeIgnore(rest));
      }
    }
  }

  lemma DecodeFirst(r: Rune, rest: seq<Byte>)
    ensures DecodeIgnore(EncodeOne(r) + rest) == [r] + DecodeIgnore(rest)
  {
    FrontOfEncoded(r, rest);
    assert (EncodeOne(r) + rest)[|EncodeOne(r)|..] == rest;
  }

  /** One more character in front. */
  lemma FitsLonger(text: seq<Rune>, n: nat, p: seq<Rune>)
    requires text != [] && |EncodeOne(text[0])| <= n && LongestFit(text[1..], n - |EncodeOne(text[0])|, p)
    ensures LongestFit(text, n, [text[0]] + p)
  {
    assert ([text[0]] + p)[1..] == p;
    if |p| < |text| - 1 {
      assert text[..|p| + 2][1..] == text[1..][..|p| + 1];
    }
  }

  lemma {:induction false} EncodeMonotone(text: seq<Rune>, n: nat)
    requires n <= |text|
    ensures |Encode(text[..n])| <= |Encode(text)|
  {
    if n > 0 {
      assert text[..n][1..] == text[1..][..n - 1];
      EncodeMonotone(text[1..], n - 1);
    }
  }

  /** There is only one longest prefix that fits. */
  lemma LongestFitUnique(text: seq<Rune>, n: nat, p: seq<Rune>, q: seq<Rune>)
    requires LongestFit(text, n, p) && LongestFit(text, n, q)
    ensures p == q
  {
    if |p| < |q| {
      assert q[..|p| + 1] == text[..|p| + 1];
      EncodeMonotone(q, |p| + 1);
    } else if |q| < |p| {
      assert p[..|q| + 1] == text[..|q| + 1];
      EncodeMonotone(p, |q| + 1);
    } else {
      assert p == text[..|p|] && q == text[..|q|];
    }
  }

  // ---- the cut ----

  /** int(n * 0.7) in binary floating point: exact, or one less (int(90 * 0.7) is 62). */
  predicate Share(n: nat, s: nat) {
    s == 7 * n / 10 || s == 7 * n / 10 - 1
  }

  /** i is the last place of c in s at or after start, -1 if there is none. */
  predicate IsLast(s: seq<Rune>, c: Rune, start: nat, i: int) {
    && (i == -1 || (start <= i < |s| && s[i] == c))
    && forall j :: start <= j < |s| && j > i ==> s[j] != c
  }

  method RFind(s: seq<Rune>, c: Rune, start: nat) returns (i: int)
    ensures IsLast(s, c, start, i)
  {
    i := |s| - 1;
    while i >= start
      invariant forall j :: start <= j < |s| && j > i ==> s[j] != c
    {
      if s[i] == c {
        return;
      }
      i := i - 1;
    }
    i := -1;
  }

  /** out is the longest fit cut at its last line end after `start`, failing
      that at its last blank, failing that not at all. */
  ghost predicate CutNicely(fit: seq<Rune>, start: nat, out: seq<Rune>) {
    exists nl: int, ws: int ::
      && IsLast(fit, NEWLINE, start, nl) && IsLast(fit, BLANK, start, ws)
      && out == if nl > start then fit[..nl] else if ws > start then fit[..ws] else fit
  }

  method NiceCut(fit: seq<Rune>) returns (out: seq<Rune>)
    ensures exists start :: Share(|fit|, start) && CutNicely(fit, start, out)
    ensures out <= fit
  {
    assert Share(|fit|, 7 * |fit| / 10);
    var start: nat :| Share(|fit|, start);
    var nl := RFind(fit, NEWLINE, start);
    var ws := RFind(fit, BLANK, start);
    out := if nl > start then fit[..nl] else if ws > start then fit[..ws] else fit;
  }

  method TruncateResult(text: seq<Rune>, maxBytes: int)
    returns (out: seq<Rune>, truncated: bool, truncatedBytes: nat, total: nat)
    ensures total == |Encode(text)|
    ensures truncated == (0 < maxBytes < |Encode(text)|)
    ensures !truncated ==> out == text && truncatedBytes == 0
    ensures truncated ==> truncatedBytes == |Encode(out)| <= maxBytes
    ensures truncated ==> exists fit, start ::
      LongestFit(text, maxBytes, fit) && Share(|fit|, start) && CutNicely(fit, start, out)
  {
    total := |Encode(text)|;
    if maxBytes <= 0 || total <= maxBytes {
      return text, false, 0, total;
    }
    var fit := DecodeIgnore(Encode(text)[..maxBytes]);
    DecodeCut(text, maxBytes);
    out := NiceCut(fit);
    assert out == fit[..|out|];
    EncodeMonotone(fit, |out|);
    return out, true, |Encode(out)|, total;
  }

  /** What a cut keeps: a proper prefix of whole characters within the limit,
      with at least 70% of the longest prefix that fits (rounded down, less the
      float error); it gives up more than that prefix only at a line end or a
      blank, at a line end whenever there is one in the last 30%. */
  lemma CutKeepsShare(text: seq<Rune>, maxBytes: nat, fit: seq<Rune>, start: nat, out: seq<Rune>)
    requires maxBytes < |Encode(text)| && LongestFit(text, maxBytes, fit)
    requires Share(|fit|, start) && CutNicely(fit, start, out)
    ensures out <= text && out != text && |Encode(out)| <= maxBytes
    ensures out == fit || 10 * |out| >= 7 * |fit| - 9
    ensures out != fit ==> text[|out|] == NEWLINE || text[|out|] == BLANK
    ensures (exists i :: start < i < |fit| && fit[i] == NEWLINE) ==> out != fit && text[|out|] == NEWLINE
    ensures forall i :: |out| < i < |fit| ==> fit[i] != NEWLINE
    ensures out == fit <==> forall i :: start < i < |fit| ==> fit[i] != NEWLINE && fit[i] != BLANK
    ensures out != fit ==> |out| > start
    ensures out != fit && text[|out|] == BLANK ==> forall i :: start < i < |fit| ==> fit[i] != NEWLINE && (i > |out| ==> fit[i] != BLANK)
  {
    EncodeMonotone(fit, |out|);
    assert out == fit[..|out|];
  }

  // ---- the encoding, by its bytes ----

  /** The bits a byte contributes. */
  function Bits(b: Byte): int {
    if b < 0x80 then b else if b < 0xC0 then b - 0x80 else if b < 0xE0 then b - 0xC0 else if b < 0xF0 then b - 0xE0 else b - 0xF0
  }

  function Value(bytes: seq<Byte>): int {
    if bytes == [] then 0 else Value(bytes[..|bytes| - 1]) * 64 + Bits(bytes[|bytes| - 1])
  }

  /** The table of section 3 of RFC 3629: how many bytes a character takes, what
      its first byte looks like, that the others are 10xxxxxx, and that together
      they hold its number, six bits a byte. */
  lemma EncodedByTable(r: Rune)
    ensures var bytes := EncodeOne(r);
      && (r <= 0x7F ==> |bytes| == 1 && bytes[0] <= 0x7F)
      && (0x80 <= r <= 0x7FF ==> |bytes| == 2 && 0xC2 <= bytes[0] <= 0xDF)
      && (0x800 <= r <= 0xFFFF ==> |bytes| == 3 && 0xE0 <= bytes[0] <= 0xEF)
      && (0x10000 <= r ==> |bytes| == 4 && 0xF0 <= bytes[0] <= 0xF4)
      && (forall i :: 1 <= i < |bytes| ==> 0x80 <= bytes[i] <= 0xBF)
      && Value(bytes) == r
  {
    var bytes := EncodeOne(r);
    ValueOfFew(bytes);
    Recombine3(r);
    Recombine4(r);
  }

  lemma ValueOfFew(bytes: seq<Byte>)
    requires 1 <= |bytes| <= 4
    ensures |bytes| == 1 ==> Value(bytes) == Bits(bytes[0])
    ensures |bytes| == 2 ==> Value(bytes) == Bits(bytes[0]) * 0x40 + Bits(bytes[1])
    ensures |bytes| == 3 ==> Value(bytes) == Bits(bytes[0]) * 0x1000 + Bits(bytes[1]) * 0x40 + Bits(bytes[2])
    ensures |bytes| == 4 ==>
      Value(bytes) == Bits(bytes[0]) * 0x40000 + Bits(bytes[1]) * 0x1000 + Bits(bytes[2]) * 0x40 + Bits(bytes[3])
  {
    if |bytes| > 1 {
      ValueOfFew(bytes[..|bytes| - 1]);
    } else {
      assert bytes[..0] == [];
    }
  }
}
