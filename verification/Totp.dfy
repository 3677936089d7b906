/** Time-based one-time codes. */
module Totp {
  import opened Wrappers
  import opened Base32
  import opened Whitespace

  /** An HMAC-SHA-1 digest. */
  type Digest = s: seq<Byte> | |s| == 20 witness seq(20, k => 0)

  /** HMAC-SHA-1 itself is any function of a key and a message. */
  type Hmac = (seq<Byte>, seq<Byte>) -> Digest

  function BigEndian(bytes: seq<Byte>): nat {
    if bytes == [] then 0 else 256 * BigEndian(bytes[..|bytes| - 1]) + bytes[|bytes| - 1]
  }

  // ---- The counter block -------------------------------------------------------------------

  /** The four bytes that a 32-bit store writes for a number: only its lowest 32 bits. */
  function Uint32(v: int): seq<Byte> {
    [v / 0x100_0000 % 256, v / 0x1_0000 % 256, v / 0x100 % 256, v % 256]
  }

  function CounterBlock(counter: int): seq<Byte> { Uint32(counter / 0x1_0000_0000) + Uint32(counter) }

  method SetUint32(view: array<Byte>, at: nat, v: int)
    requires at + 4 <= view.Length
    modifies view
    ensures view[..] == old(view[..at]) + Uint32(v) + old(view[at + 4..])
  {
    view[at] := v / 0x100_0000 % 256;
    view[at + 1] := v / 0x1_0000 % 256;
    view[at + 2] := v / 0x100 % 256;
    view[at + 3] := v % 256;
  }

  lemma Append(s: seq<Byte>, b: Byte)
    ensures BigEndian(s + [b]) == 256 * BigEndian(s) + b
  {
    assert (s + [b])[..|s|] == s;
  }

  lemma FourMore(s: seq<Byte>, a: Byte, b: Byte, c: Byte, d: Byte)
    ensures BigEndian(s + [a, b, c, d])
            == 0x1_0000_0000 * BigEndian(s) + (a as int * 0x100_0000 + b as int * 0x1_0000 + c as int * 0x100 + d)
  {
    Append(s, a);
    Append(s + [a], b);
    Append(s + [a] + [b], c);
    Append(s + [a] + [b] + [c], d);
    assert s + [a, b, c, d] == s + [a] + [b] + [c] + [d];
  }

  lemma OneByte(v: int)
    ensures v == 0x100 * (v / 0x100) + v % 0x100
  {
  }

  lemma NextByte(v: int, k: int)
    requires k == 0x100 || k == 0x1_0000
    ensures v / (k * 0x100) == v / k / 0x100
  {
  }

  lemma Remainder(v: int, q: int, r: int)
    requires v == 0x1_0000_0000 * q + r && 0 <= r < 0x1_0000_0000
    ensures v % 0x1_0000_0000 == r
  {
  }

  lemma Recombined(v: int)
    ensures v / 0x100_0000 % 256 * 0x100_0000 + v / 0x1_0000 % 256 * 0x1_0000 + v / 0x100 % 256 * 0x100 + v % 256
            == v % 0x1_0000_0000
  {
    var x, y, z := v / 0x100, v / 0x1_0000, v / 0x100_0000;
    NextByte(v, 0x100);
    NextByte(v, 0x1_0000);
    OneByte(v);
    OneByte(x);
    OneByte(y);
    OneByte(z);
    Remainder(v, z / 0x100, z % 256 * 0x100_0000 + y % 256 * 0x1_0000 + x % 256 * 0x100 + v % 256);
  }

  lemma WordAppended(s: seq<Byte>, v: int)
    ensures BigEndian(s + Uint32(v)) == 0x1_0000_0000 * BigEndian(s) + v % 0x1_0000_0000
  {
    FourMore(s, v / 0x100_0000 % 256, v / 0x1_0000 % 256, v / 0x100 % 256, v % 256);
    Recombined(v);
  }

  lemma Halves(c: int)
    ensures 0x1_0000_0000 * (c / 0x1_0000_0000 % 0x1_0000_0000) + c % 0x1_0000_0000 == c % 0x1_0000_0000_0000_0000
  {
    var high := c / 0x1_0000_0000;
    var top := high / 0x1_0000_0000;
    assert c == 0x1_0000_0000 * high + c % 0x1_0000_0000;
    assert high == 0x1_0000_0000 * top + high % 0x1_0000_0000;
  }

  /** The block is the counter in eight bytes, most significant first. */
  lemma CounterIsBigEndian(counter: int)
    ensures |CounterBlock(counter)| == 8
    ensures BigEndian(CounterBlock(counter)) == counter % 0x1_0000_0000_0000_0000
  {
    var high := counter / 0x1_0000_0000;
    WordAppended([], high);
    assert [] + Uint32(high) == Uint32(high);
    WordAppended(Uint32(high), counter);
    Halves(counter);
  }

  // ---- Codes -------------------------------------------------------------------------------

  function Digit(n: nat): char
    requires n < 10
  {
    '0' + n as char
  }

  predicate IsDigit(c: char) { '0' <= c <= '9' }

  function Decimal(n: nat): (s: string)
    ensures |s| > 0
  {
    if n < 10 then [Digit(n)] else Decimal(n / 10) + [Digit(n % 10)]
  }

  function PadStart(s: string, n: nat, c: char): string
    decreases n - |s|
  {
    if |s| >= n then s else PadStart([c] + s, n, c)
  }

  /** Exactly `n` digits, the lowest of the number. */
  function Padded(v: nat, n: nat): (s: string)
    ensures |s| == n && forall k :: 0 <= k < n ==> IsDigit(s[k])
  {
    if n == 0 then "" else Padded(v / 10, n - 1) + [Digit(v % 10)]
  }

  function Pow10(n: nat): (p: nat)
    ensures p >= 1
  {
    if n == 0 then 1 else 10 * Pow10(n - 1)
  }

  function Chosen(sig: Digest): seq<Byte> {
    var offset := sig[19] % 16;
    sig[offset..offset + 4]
  }

  /** The low 31 bits of the four bytes that the last digest byte points at. */
  function Truncate(sig: Digest): nat { BigEndian(Chosen(sig)) % 0x8000_0000 }

  function Hotp(sign: Hmac, key: seq<Byte>, counter: int, digits: nat): string {
    PadStart(Decimal(Truncate(sign(key, CounterBlock(counter))) % Pow10(digits)), digits, '0')
  }

  lemma MaskedFour(a: Byte, b: Byte, c: Byte, d: Byte)
    ensures BigEndian([a, b, c, d]) % 0x8000_0000
            == a as int % 128 * 0x100_0000 + b as int * 0x1_0000 + c as int * 0x100 + d
  {
    FourMore([], a, b, c, d);
    assert [] + [a, b, c, d] == [a, b, c, d];
  }

  method DynamicTruncation(sig: Digest) returns (n: nat)
    ensures n == Truncate(sig)
  {
    var offset := sig[|sig| - 1] % 16;
    MaskedFour(sig[offset], sig[offset + 1], sig[offset + 2], sig[offset + 3]);
    assert Chosen(sig) == [sig[offset], sig[offset + 1], sig[offset + 2], sig[offset + 3]];
    n := sig[offset] as int % 128 * 0x100_0000 + sig[offset + 1] as int * 0x1_0000
         + sig[offset + 2] as int * 0x100 + sig[offset + 3];
  }

  method ComputeHotp(sign: Hmac, key: seq<Byte>, counter: int, digits: nat) returns (code: string)
    ensures code == Hotp(sign, key, counter, digits)
  {
    var view := new Byte[8](k => 0);
    SetUint32(view, 0, counter / 0x1_0000_0000);
    SetUint32(view, 4, counter);
    assert view[..] == CounterBlock(counter);
    var n := DynamicTruncation(sign(key, view[..]));
    code := PadStart(Decimal(n % Pow10(digits)), digits, '0');
  }

  lemma {:induction false} PadAppends(s: string, c: char, n: nat)
    ensures PadStart(s + [c], n + 1, '0') == PadStart(s, n, '0') + [c]
    decreases n - |s|
  {
    if |s| < n {
      assert ['0'] + (s + [c]) == (['0'] + s) + [c];
      PadAppends(['0'] + s, c, n);
    }
  }

  lemma {:induction false} PaddedIsPadStart(v: nat, n: nat)
    requires 0 < n && v < Pow10(n)
    ensures PadStart(Decimal(v), n, '0') == Padded(v, n)
    decreases n
  {
    if v < 10 {
      OneDigit(v, n);
    } else {
      assert n > 1 by { assert Pow10(1) == 10 * Pow10(0); }
      PaddedIsPadStart(v / 10, n - 1);
      PadAppends(Decimal(v / 10), Digit(v % 10), n - 1);
    }
  }

  lemma {:induction false} OneDigit(v: nat, n: nat)
    requires v < 10 && 0 < n
    ensures PadStart([Digit(v)], n, '0') == Padded(v, n)
    decreases n
  {
    if n == 1 {
      assert Padded(v, 1) == Padded(v / 10, 0) + [Digit(v % 10)];
    } else {
      OneDigit(0, n - 1);
      assert ['0'] + "" == [Digit(0)];
      PadAppends("", Digit(v), n - 1);
      assert "" + [Digit(v)] == [Digit(v)];
    }
  }

  /** A code is always the wanted number of digits, the lowest of the truncated digest. */
  lemma CodeHasItsDigits(sign: Hmac, key: seq<Byte>, counter: int, digits: nat)
    requires digits > 0
    ensures var code := Hotp(sign, key, counter, digits);
      code == Padded(Truncate(sign(key, CounterBlock(counter))) % Pow10(digits), digits)
      && IsCode(code, digits)
  {
    PaddedIsPadStart(Truncate(sign(key, CounterBlock(counter))) % Pow10(digits), digits);
  }

  // ---- Verification ------------------------------------------------------------------------

  datatype Verdict = NoMatch | BadSecret | Match(offset: int)

  function Strip(token: string): string {
    if token == "" then "" else if IsSpace(token[0]) then Strip(token[1..]) else [token[0]] + Strip(token[1..])
  }

  predicate IsCode(s: string, digits: nat) { |s| == digits && forall k :: 0 <= k < |s| ==> IsDigit(s[k]) }

  function Candidate(token: Option<string>): string { if token == None then "" else Strip(token.value) }

  /** The step a moment in milliseconds falls in. */
  function Counter(at: int, period: nat): int
    requires period > 0
  {
    at / (1000 * period)
  }

  /** The verdict is the first matching step of the window, or that there is none. */
  ghost predicate IsVerdict(sign: Hmac, secret: string, token: Option<string>, at: int, window: int, period: nat,
                            digits: nat, r: Verdict)
    requires period > 0
  {
    if !IsCode(Candidate(token), digits) then r == NoMatch
    else if !Spelled(Clean(secret)) then r == BadSecret
    else
      forall key :: IsDecoding(Clean(secret), Some(key)) ==>
        FirstMatch(sign, key, Candidate(token), Counter(at, period), window, digits, r)
  }

  /** No step from one to just before another has this code. */
  ghost predicate Unmatched(sign: Hmac, key: seq<Byte>, code: string, from: int, to: int, digits: nat) {
    forall n :: from <= n < to ==> Hotp(sign, key, n, digits) != code
  }

  lemma UnmatchedNext(sign: Hmac, key: seq<Byte>, code: string, from: int, to: int, digits: nat)
    requires Unmatched(sign, key, code, from, to, digits) && Hotp(sign, key, to, digits) != code
    ensures Unmatched(sign, key, code, from, to + 1, digits)
  {
  }

  ghost predicate FirstMatch(sign: Hmac, key: seq<Byte>, code: string, counter: int, window: int, digits: nat, r: Verdict) {
    match r
    case BadSecret => false
    case NoMatch => Unmatched(sign, key, code, counter - window, counter + window + 1, digits)
    case Match(offset) =>
      && -window <= offset <= window
      && Hotp(sign, key, counter + offset, digits) == code
      && Unmatched(sign, key, code, counter - window, counter + offset, digits)
  }

  ghost predicate InWindow(sign: Hmac, key: seq<Byte>, code: string, counter: int, window: int, digits: nat) {
    exists n :: counter - window <= n <= counter + window && Hotp(sign, key, n, digits) == code
  }

  lemma DecodingIsUnique(s: string, a: seq<Byte>, b: seq<Byte>)
    requires IsDecoding(s, Some(a)) && IsDecoding(s, Some(b))
    ensures a == b
  {
    BytesAreTheirBits(a, b);
  }

  lemma VerdictIs(sign: Hmac, secret: string, token: Option<string>, at: int, window: int, period: nat, digits: nat,
                  key: seq<Byte>, r: Verdict)
    requires period > 0 && IsCode(Candidate(token), digits) && IsDecoding(Clean(secret), Some(key))
    requires FirstMatch(sign, key, Candidate(token), Counter(at, period), window, digits, r)
    ensures IsVerdict(sign, secret, token, at, window, period, digits, r)
  {
    forall other | IsDecoding(Clean(secret), Some(other)) ensures other == key {
      DecodingIsUnique(Clean(secret), other, key);
    }
  }

  /** The steps of the window, one after the other. */
  method TrySteps(sign: Hmac, key: seq<Byte>, candidate: string, counter: int, window: int, digits: nat) returns (r: Verdict)
    ensures FirstMatch(sign, key, candidate, counter, window, digits, r)
  {
    var offset := -window;
    ghost var from, next := counter - window, counter - window;
    while offset <= window
      invariant -window <= offset && next == counter + offset
      invariant Unmatched(sign, key, candidate, from, next, digits)
      decreases window - offset
    {
      var expected := ComputeHotp(sign, key, counter + offset, digits);
      if expected == candidate {
        return Match(offset);
      }
      UnmatchedNext(sign, key, candidate, from, next, digits);
      offset, next := offset + 1, next + 1;
    }
    UnmatchedFewer(sign, key, candidate, from, next, counter + window + 1, digits);
    return NoMatch;
  }

  lemma UnmatchedFewer(sign: Hmac, key: seq<Byte>, code: string, from: int, to: int, less: int, digits: nat)
    requires Unmatched(sign, key, code, from, to, digits) && less <= to
    ensures Unmatched(sign, key, code, from, less, digits)
  {
  }

  method VerifyTotp(sign: Hmac, secret: string, token: Option<string>, at: int, window: int, period: nat, digits: nat)
    returns (r: Verdict)
    requires period > 0
    ensures IsVerdict(sign, secret, token, at, window, period, digits, r)
  {
    var candidate := Candidate(token);
    if !IsCode(candidate, digits) { return NoMatch; }
    var decoded := Decode(secret);
    if decoded == None { return BadSecret; }
    r := TrySteps(sign, decoded.value, candidate, Counter(at, period), window, digits);
    VerdictIs(sign, secret, token, at, window, period, digits, decoded.value, r);
  }

  lemma StepsApart(t: int, at: int, period: nat, window: nat)
    requires period > 0 && at - t <= window * (1000 * period)
    ensures Counter(at, period) - Counter(t, period) <= window
  {
    var p := 1000 * period;
    var a, b := t / p, at / p;
    assert t < (a + 1) * p && b * p <= at by { Quotient(t, p); Quotient(at, p); }
    Times(b - a - 1, window, p);
    assert (b - a - 1) * p == b * p - (a + 1) * p;
  }

  lemma Quotient(t: int, p: nat)
    requires p > 0
    ensures t / p * p <= t < (t / p + 1) * p
  {
    assert t == t / p * p + t % p;
    assert (t / p + 1) * p == t / p * p + p;
  }

  lemma Times(a: int, b: int, p: nat)
    ensures a >= b ==> a * p >= b * p
  {
    if a >= b { assert (a - b) * p >= 0; }
  }

  /**
   A code made from the same secret is accepted as long as at most `window` periods have gone by
   either way, with spaces typed into it or not, and the offset it is accepted at is the step it
   was made in or an earlier one of the window with the same code.
   */
  lemma AcceptedWithinWindow(sign: Hmac, secret: string, key: seq<Byte>, made: int, token: string, at: int,
                             window: nat, period: nat, digits: nat, r: Verdict)
    requires period > 0 && digits > 0
    requires IsDecoding(Clean(secret), Some(key))
    requires Strip(token) == Hotp(sign, key, Counter(made, period), digits)
    requires at - made <= window * (1000 * period) && made - at <= window * (1000 * period)
    requires IsVerdict(sign, secret, Some(token), at, window, period, digits, r)
    ensures r.Match? && r.offset <= Counter(made, period) - Counter(at, period)
    ensures Hotp(sign, key, Counter(at, period) + r.offset, digits) == Strip(token)
  {
    CodeHasItsDigits(sign, key, Counter(made, period), digits);
    StepsApart(made, at, period, window);
    StepsApart(at, made, period, window);
    assert FirstMatch(sign, key, Candidate(Some(token)), Counter(at, period), window, digits, r);
  }

  /** Nothing is accepted but the code of a step inside the window. */
  lemma OnlyWindowCodesAreAccepted(sign: Hmac, secret: string, key: seq<Byte>, token: Option<string>, at: int,
                                   window: int, period: nat, digits: nat, r: Verdict)
    requires period > 0 && IsDecoding(Clean(secret), Some(key))
    requires IsVerdict(sign, secret, token, at, window, period, digits, r)
    ensures r.Match? <==> (IsCode(Candidate(token), digits) && InWindow(sign, key, Candidate(token), Counter(at, period), window, digits))
  {
    if IsCode(Candidate(token), digits) {
      assert FirstMatch(sign, key, Candidate(token), Counter(at, period), window, digits, r);
    }
  }

  // ---- The truncation of section 5.3 of RFC 4226 -------------------------------------------

  /** The low four bits of the last byte say where four bytes are taken; their top bit is dropped. */
  lemma TruncationIsDynamic(sig: Digest, offset: int)
    requires offset == sig[|sig| - 1] % 16
    ensures Truncate(sig)
            == sig[offset] as int % 128 * 0x100_0000 + sig[offset + 1] as int * 0x1_0000
               + sig[offset + 2] as int * 0x100 + sig[offset + 3]
  {
    MaskedFour(sig[offset], sig[offset + 1], sig[offset + 2], sig[offset + 3]);
    assert Chosen(sig) == [sig[offset], sig[offset + 1], sig[offset + 2], sig[offset + 3]];
  }

  /** The example of section 5.4 of RFC 4226. */
  lemma TheStandardsExample(sig: Digest)
    requires sig == [0x1f, 0x86, 0x98, 0x69, 0x0e, 0x02, 0xca, 0x16, 0x61, 0x85, 0x50, 0xef, 0x7f, 0x19, 0xda, 0x8e, 0x94, 0x5b, 0x55, 0x5a]
    ensures Truncate(sig) == 0x50ef7f19
  {
    TruncationIsDynamic(sig, 10);
  }

  /** Steps begin every `period` seconds, counted from 1 January 1970. */
  lemma CounterCountsPeriods(at: int, period: nat)
    requires period > 0
    ensures Counter(at, period) * (period * 1000) <= at < (Counter(at, period) + 1) * (period * 1000)
  {
    var n := 1000 * period;
    assert at == at / n * n + at % n;
    assert (at / n + 1) * n == at / n * n + n;
  }
}
