/** Base 32 on a 32-bit accumulator. */
module Base32 {
  import opened Whitespace
  import opened Wrappers

  type Byte = x: int | 0 <= x < 256

  // ---- Bits, most significant first --------------------------------------------------------

  /** The lowest `n` bits of a number. */
  function Bits(v: nat, n: nat): (r: seq<bool>)
    ensures |r| == n
  {
    if n == 0 then [] else Bits(v / 2, n - 1) + [v % 2 == 1]
  }

  function Number(bits: seq<bool>): nat {
    if bits == [] then 0 else 2 * Number(bits[..|bits| - 1]) + (if bits[|bits| - 1] then 1 else 0)
  }

  function Pow2(n: nat): nat { if n == 0 then 1 else 2 * Pow2(n - 1) }

  lemma {:induction false} NumberIsSmall(bits: seq<bool>)
    ensures Number(bits) < Pow2(|bits|)
    decreases |bits|
  {
    if bits != [] { NumberIsSmall(bits[..|bits| - 1]); }
  }

  lemma {:induction false} BitsOfNumber(bits: seq<bool>)
    ensures Bits(Number(bits), |bits|) == bits
    decreases |bits|
  {
    if bits != [] {
      BitsOfNumber(bits[..|bits| - 1]);
      assert bits == bits[..|bits| - 1] + [bits[|bits| - 1]];
    }
  }

  lemma {:induction false} NumberOfBits(v: nat, n: nat)
    requires v < Pow2(n)
    ensures Number(Bits(v, n)) == v
    decreases n
  {
    if n > 0 {
      NumberOfBits(v / 2, n - 1);
      assert Bits(v, n)[..n - 1] == Bits(v / 2, n - 1);
    }
  }

  lemma Sizes()
    ensures Pow2(5) == 32 && Pow2(8) == 256
  {
    assert Pow2(5) == 2 * Pow2(4) == 4 * Pow2(3) == 8 * Pow2(2) == 16 * Pow2(1) == 32 * Pow2(0);
    assert Pow2(8) == 2 * Pow2(7) == 4 * Pow2(6) == 8 * Pow2(5);
  }

  function BitsOf(bytes: seq<Byte>): (r: seq<bool>)
    ensures |r| == 8 * |bytes|
  {
    if bytes == [] then [] else BitsOf(bytes[..|bytes| - 1]) + Bits(bytes[|bytes| - 1], 8)
  }

  // ---- The alphabet ------------------------------------------------------------------------

  predicate IsLetter(c: char) { 'A' <= c <= 'Z' || '2' <= c <= '7' }

  function Letter(i: nat): (c: char)
    requires i < 32
    ensures IsLetter(c) && IndexOf(c) == i
  {
    if i < 26 then 'A' + i as char else '2' + (i - 26) as char
  }

  /** The value of a letter. */
  function IndexOf(c: char): (n: nat)
    requires IsLetter(c)
    ensures n < 32
  {
    if 'A' <= c then (c - 'A') as nat else (c - '2') as nat + 26
  }

  predicate Spelled(s: string) { forall k :: 0 <= k < |s| ==> IsLetter(s[k]) }

  /** The five bits of each letter, one after the other. */
  function LetterBits(s: string): (r: seq<bool>)
    requires Spelled(s)
    ensures |r| == 5 * |s|
  {
    if s == "" then [] else LetterBits(s[..|s| - 1]) + Bits(IndexOf(s[|s| - 1]), 5)
  }

  function Zeros(n: nat): (r: seq<bool>)
    ensures |r| == n && forall k :: 0 <= k < n ==> !r[k]
  {
    if n == 0 then [] else Zeros(n - 1) + [false]
  }

  /**
   The encoding of section 6 of RFC 4648 without padding characters: the bits of the input, cut
   into groups of five with zero bits added to fill the last, one letter for each.
   */
  ghost predicate IsEncoding(bytes: seq<Byte>, s: string) {
    Spelled(s) && exists pad: nat :: pad < 5 && LetterBits(s) == BitsOf(bytes) + Zeros(pad)
  }

  /** The decoding of a cleaned text: whole bytes, what is left of the last letter dropped. */
  ghost predicate IsDecoding(s: string, r: Option<seq<Byte>>) {
    if Spelled(s) then r.Some? && |r.value| == 5 * |s| / 8 && BitsOf(r.value) == LetterBits(s)[..8 * |r.value|]
    else r == None
  }

  // ---- The accumulator ---------------------------------------------------------------------

  /** A 32-bit word, most significant bit first, with the shifts that lose what leaves it. */
  type Word = w: seq<bool> | |w| == 32 witness Zeros(32)

  function Shl(w: Word, k: nat): Word
    requires k <= 32
  {
    w[k..] + Zeros(k)
  }

  /** The unsigned right shift. */
  function Shr(w: Word, k: nat): Word
    requires k <= 32
  {
    Zeros(k) + w[..32 - k]
  }

  function Or(v: Word, w: Word): Word { seq(32, k requires 0 <= k < 32 => v[k] || w[k]) }

  /** The word of a number of at most `n` bits. */
  function ToWord(v: nat, n: nat): Word
    requires n <= 32
  {
    Zeros(32 - n) + Bits(v, n)
  }

  /** The number in the lowest `n` bits: a mask of `n` ones. */
  function Masked(w: Word, n: nat): nat
    requires n <= 32
  {
    Number(Low(w, n))
  }

  function Low(w: Word, n: nat): (r: seq<bool>)
    requires n <= 32
    ensures |r| == n
  {
    w[32 - n..]
  }

  /** Shifting `k` bits in behind the pending ones loses none of them. */
  lemma ShiftedIn(w: Word, n: nat, k: nat, v: nat)
    requires n + k <= 32
    ensures Low(Or(Shl(w, k), ToWord(v, k)), n + k) == Low(w, n) + Bits(v, k)
  {
    var a, b := Shl(w, k), ToWord(v, k);
    var u := Or(a, b);
    forall i | 32 - n - k <= i < 32 ensures u[i] == if i < 32 - k then w[i + k] else Bits(v, k)[i - (32 - k)] {
      if i < 32 - k {
        assert a[i] == w[k..][i] && !b[i];
      } else {
        assert a[i] == Zeros(k)[i - (32 - k)] && b[i] == Bits(v, k)[i - (32 - k)];
      }
    }
    var low, all := Low(u, n + k), Low(w, n) + Bits(v, k);
    forall i | 0 <= i < n + k ensures low[i] == all[i] {
      assert low[i] == u[32 - n - k + i];
    }
  }

  /** The topmost `k` of the pending bits. */
  lemma TakenOut(w: Word, n: nat, k: nat)
    requires k <= n <= 32
    ensures Low(Shr(w, n - k), k) + Low(w, n - k) == Low(w, n)
    ensures Masked(Shr(w, n - k), k) < Pow2(k)
    ensures Bits(Masked(Shr(w, n - k), k), k) == Low(Shr(w, n - k), k)
  {
    NumberIsSmall(Low(Shr(w, n - k), k));
    BitsOfNumber(Low(Shr(w, n - k), k));
  }

  lemma LetterAppended(out: string, c: char)
    requires Spelled(out) && IsLetter(c)
    ensures Spelled(out + [c]) && LetterBits(out + [c]) == LetterBits(out) + Bits(IndexOf(c), 5)
  {
    assert (out + [c])[..|out|] == out;
  }

  lemma ByteAppended(out: seq<Byte>, b: Byte)
    ensures BitsOf(out + [b]) == BitsOf(out) + Bits(b, 8)
  {
    assert (out + [b])[..|out|] == out;
  }

  lemma Regroup(a: seq<bool>, b: seq<bool>, c: seq<bool>)
    ensures a + b + c == a + (b + c)
  {
  }

  // ---- Encoding ----------------------------------------------------------------------------

  /** One more letter for the topmost five of the pending bits. */
  method LetterOut(out: string, value: Word, bits: nat) returns (c: char)
    requires 5 <= bits <= 32 && Spelled(out)
    ensures IsLetter(c) && LetterBits(out + [c]) + Low(value, bits - 5) == LetterBits(out) + Low(value, bits)
  {
    TakenOut(value, bits, 5);
    Sizes();
    c := Letter(Masked(Shr(value, bits - 5), 5));
    LetterAppended(out, c);
    Regroup(LetterBits(out), Bits(IndexOf(c), 5), Low(value, bits - 5));
  }

  /** The last letter, its missing bits filled with zeros. */
  method LastLetter(out: string, value: Word, bits: nat) returns (c: char)
    requires 0 < bits < 5 && Spelled(out)
    ensures IsLetter(c) && LetterBits(out + [c]) == LetterBits(out) + Low(value, bits) + Zeros(5 - bits)
  {
    var w := Shl(value, 5 - bits);
    NumberIsSmall(Low(w, 5));
    BitsOfNumber(Low(w, 5));
    Sizes();
    c := Letter(Masked(w, 5));
    LetterAppended(out, c);
    assert Low(w, 5) == Low(value, bits) + Zeros(5 - bits);
    Regroup(LetterBits(out), Low(value, bits), Zeros(5 - bits));
  }

  /** Letters for as long as five bits are pending. */
  method LettersOut(start: string, value: Word, pending: nat) returns (out: string, bits: nat)
    requires pending <= 32 && Spelled(start)
    ensures bits < 5 && Spelled(out)
    ensures LetterBits(out) + Low(value, bits) == LetterBits(start) + Low(value, pending)
  {
    out, bits := start, pending;
    while bits >= 5
      invariant bits <= 32 && Spelled(out)
      invariant LetterBits(out) + Low(value, bits) == LetterBits(start) + Low(value, pending)
    {
      var c := LetterOut(out, value, bits);
      out := out + [c];
      bits := bits - 5;
    }
  }

  /** What is written and what is pending are the bits of the first `i` bytes. */
  ghost predicate Encoded(bytes: seq<Byte>, i: nat, out: string, value: Word, bits: nat) {
    i <= |bytes| && bits <= 32 && Spelled(out) && LetterBits(out) + Low(value, bits) == BitsOf(bytes[..i])
  }

  lemma ByteIn(bytes: seq<Byte>, i: nat, out: string, value: Word, bits: nat)
    requires i < |bytes| && bits < 5 && Encoded(bytes, i, out, value, bits)
    ensures Encoded(bytes, i + 1, out, Or(Shl(value, 8), ToWord(bytes[i], 8)), bits + 8)
  {
    ShiftedIn(value, bits, 8, bytes[i]);
    assert bytes[..i + 1] == bytes[..i] + [bytes[i]];
    ByteAppended(bytes[..i], bytes[i]);
    Regroup(LetterBits(out), Low(value, bits), Bits(bytes[i], 8));
  }

  lemma FilledUp(bytes: seq<Byte>, out: string, pad: nat)
    requires Spelled(out) && pad < 5 && LetterBits(out) == BitsOf(bytes) + Zeros(pad)
    ensures IsEncoding(bytes, out) && |out| == (8 * |bytes| + 4) / 5
  {
    assert |LetterBits(out)| == |BitsOf(bytes)| + |Zeros(pad)|;
    GroupsOfFive(|out|, |bytes|, pad);
  }

  lemma GroupsOfFive(letters: nat, bytes: nat, pad: nat)
    requires 5 * letters == 8 * bytes + pad && pad < 5
    ensures letters == (8 * bytes + 4) / 5
  {
  }

  method Encode(bytes: seq<Byte>) returns (out: string)
    ensures IsEncoding(bytes, out)
    ensures |out| == (8 * |bytes| + 4) / 5
  {
    var bits: nat, value: Word := 0, Zeros(32);
    out := "";
    for i := 0 to |bytes|
      invariant bits < 5 && Encoded(bytes, i, out, value, bits)
    {
      ByteIn(bytes, i, out, value, bits);
      value := Or(Shl(value, 8), ToWord(bytes[i], 8));
      bits := bits + 8;
      out, bits := LettersOut(out, value, bits);
    }
    assert bytes[..|bytes|] == bytes;
    if bits > 0 {
      var c := LastLetter(out, value, bits);
      out := out + [c];
      FilledUp(bytes, out, 5 - bits);
    } else {
      assert Low(value, 0) == [] && Zeros(0) == [];
      FilledUp(bytes, out, 0);
    }
  }

  // ---- Decoding ----------------------------------------------------------------------------

  function Upper(c: char): char {
    if 'a' <= c <= 'z' then (c as int - 32) as char else c
  }

  predicate IsDropped(c: char) { c == '=' || c == '-' || IsSpace(c) }

  /** The text in upper case without padding, dashes and white space. */
  function Clean(input: string): string {
    if input == "" then ""
    else if IsDropped(Upper(input[0])) then Clean(input[1..])
    else [Upper(input[0])] + Clean(input[1..])
  }

  method ByteOut(out: seq<Byte>, value: Word, bits: nat) returns (b: Byte)
    requires 8 <= bits <= 32
    ensures BitsOf(out + [b]) + Low(value, bits - 8) == BitsOf(out) + Low(value, bits)
  {
    TakenOut(value, bits, 8);
    Sizes();
    b := Masked(Shr(value, bits - 8), 8);
    ByteAppended(out, b);
    Regroup(BitsOf(out), Bits(b, 8), Low(value, bits - 8));
  }

  lemma LetterIn(clean: string, i: nat, out: seq<Byte>, value: Word, bits: nat, idx: nat)
    requires i < |clean| && IsLetter(clean[i]) && idx == IndexOf(clean[i]) && bits < 8
    requires Spelled(clean[..i]) && BitsOf(out) + Low(value, bits) == LetterBits(clean[..i])
    ensures Spelled(clean[..i + 1])
    ensures BitsOf(out) + Low(Or(Shl(value, 5), ToWord(idx, 5)), bits + 5) == LetterBits(clean[..i + 1])
  {
    ShiftedIn(value, bits, 5, idx);
    assert clean[..i + 1] == clean[..i] + [clean[i]];
    LetterAppended(clean[..i], clean[i]);
    Regroup(BitsOf(out), Low(value, bits), Bits(idx, 5));
  }

  method Decode(input: string) returns (r: Option<seq<Byte>>)
    ensures IsDecoding(Clean(input), r)
  {
    var clean := Clean(input);
    var bits: nat, value: Word := 0, Zeros(32);
    var out: seq<Byte> := [];
    for i := 0 to |clean|
      invariant bits < 8 && Spelled(clean[..i])
      invariant BitsOf(out) + Low(value, bits) == LetterBits(clean[..i])
    {
      if !IsLetter(clean[i]) { return None; }
      var idx := IndexOf(clean[i]);
      LetterIn(clean, i, out, value, bits, idx);
      value := Or(Shl(value, 5), ToWord(idx, 5));
      bits := bits + 5;
      if bits >= 8 {
        var b := ByteOut(out, value, bits);
        out := out + [b];
        bits := bits - 8;
      }
    }
    assert clean[..|clean|] == clean;
    assert 8 * |out| + bits == 5 * |clean|;
    r := Some(out);
  }

  // ---- The round trip ----------------------------------------------------------------------

  /** A list of bytes is determined by its bits. */
  lemma {:induction false} BytesAreTheirBits(a: seq<Byte>, b: seq<Byte>)
    requires BitsOf(a) == BitsOf(b)
    ensures a == b
    decreases |a|
  {
    assert |a| == |b|;
    if a != [] {
      var n := |a| - 1;
      assert BitsOf(a)[..8 * n] == BitsOf(a[..n]) && BitsOf(a)[8 * n..] == Bits(a[n], 8);
      assert BitsOf(b)[..8 * n] == BitsOf(b[..n]) && BitsOf(b)[8 * n..] == Bits(b[n], 8);
      BytesAreTheirBits(a[..n], b[..n]);
      Sizes();
      NumberOfBits(a[n], 8);
      NumberOfBits(b[n], 8);
      assert a == a[..n] + [a[n]] && b == b[..n] + [b[n]];
    }
  }

  lemma SameLetter(c: char, d: char)
    requires IsLetter(c) && IsLetter(d) && Bits(IndexOf(c), 5) == Bits(IndexOf(d), 5)
    ensures c == d
  {
    Sizes();
    NumberOfBits(IndexOf(c), 5);
    NumberOfBits(IndexOf(d), 5);
  }

  lemma {:induction false} TextsAreTheirBits(s: string, t: string)
    requires Spelled(s) && Spelled(t) && LetterBits(s) == LetterBits(t)
    ensures s == t
    decreases |s|
  {
    assert |s| == |t|;
    if s != "" {
      var n := |s| - 1;
      assert LetterBits(s)[..5 * n] == LetterBits(s[..n]) && LetterBits(s)[5 * n..] == Bits(IndexOf(s[n]), 5);
      assert LetterBits(t)[..5 * n] == LetterBits(t[..n]) && LetterBits(t)[5 * n..] == Bits(IndexOf(t[n]), 5);
      TextsAreTheirBits(s[..n], t[..n]);
      SameLetter(s[n], t[n]);
      assert s == s[..n] + [s[n]] && t == t[..n] + [t[n]];
    }
  }

  /** Every list of bytes has one encoding only. */
  lemma EncodingIsUnique(bytes: seq<Byte>, s: string, t: string)
    requires IsEncoding(bytes, s) && IsEncoding(bytes, t)
    ensures s == t
  {
    var p: nat :| p < 5 && LetterBits(s) == BitsOf(bytes) + Zeros(p);
    var q: nat :| q < 5 && LetterBits(t) == BitsOf(bytes) + Zeros(q);
    assert 5 * |s| == 8 * |bytes| + p && 5 * |t| == 8 * |bytes| + q;
    assert p == q;
    TextsAreTheirBits(s, t);
  }

  lemma {:induction false} EncodingIsClean(s: string)
    requires Spelled(s)
    ensures Clean(s) == s
    decreases |s|
  {
    if s != "" {
      assert IsLetter(s[0]);
      EncodingIsClean(s[1..]);
    }
  }

  /**
   Decoding the encoding gives the bytes back, and so does decoding any text that differs from it
   only in case, padding, dashes and white space.
   */
  lemma RoundTrip(bytes: seq<Byte>, s: string, text: string, r: Option<seq<Byte>>)
    requires IsEncoding(bytes, s)
    requires text == s || Clean(text) == s
    requires IsDecoding(Clean(text), r)
    ensures r == Some(bytes)
  {
    EncodingIsClean(s);
    var pad: nat :| pad < 5 && LetterBits(s) == BitsOf(bytes) + Zeros(pad);
    assert |r.value| == |bytes|;
    assert BitsOf(r.value) == BitsOf(bytes);
    BytesAreTheirBits(r.value, bytes);
  }

  /** The alphabet of section 6 of RFC 4648: the capital letters, then the digits from 2 to 7. */
  lemma AlphabetIsStandard(i: nat)
    requires i < 32
    ensures Letter(i) == "ABCDEFGHIJKLMNOPQRSTUVWXYZ234567"[i]
  {
  }

  /** A text is another one with padding, dashes and white space put in and letters in either case. */
  predicate Dresses(text: string, s: string)
    decreases |text|
  {
    if text == "" then s == ""
    else
      || ((text[0] == '=' || text[0] == '-' || IsSpace(text[0])) && Dresses(text[1..], s))
      || (s != "" && (text[0] == s[0] || ('a' <= text[0] <= 'z' && s[0] == 'A' + (text[0] - 'a'))) && Dresses(text[1..], s[1..]))
  }

  /** Such a text is cleaned to the other one, so it is decoded like it. */
  lemma {:induction false} DressedIsClean(text: string, s: string)
    requires Spelled(s) && Dresses(text, s)
    ensures Clean(text) == s
    decreases |text|
  {
    if text != "" {
      if (text[0] == '=' || text[0] == '-' || IsSpace(text[0])) && Dresses(text[1..], s) {
        DressedIsClean(text[1..], s);
      } else {
        assert forall k :: 0 <= k < |s| - 1 ==> s[1..][k] == s[k + 1];
        DressedIsClean(text[1..], s[1..]);
        assert s == [s[0]] + s[1..];
      }
    }
  }
}
