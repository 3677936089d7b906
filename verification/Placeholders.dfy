/** Numbered placeholders, and the values they bind. */
module Placeholders {
  import opened Wrappers
  import opened SqlLexer
  import opened ReservedWords

  datatype Hole = Anonymous | Numbered(n: nat)

  /** What a translation returns: the statement with its values, or why it is refused. */
  datatype Outcome<V> =
    | Bound(sql: string, params: seq<Option<V>>)
    | MixedForms
    | TooFewBound(max: nat)

  function DigitLen(s: string): (n: nat)
    ensures n <= |s|
    ensures forall k :: 0 <= k < n ==> IsDigit(s[k])
    ensures n < |s| ==> !IsDigit(s[n])
  {
    if s == "" || !IsDigit(s[0]) then 0 else 1 + DigitLen(s[1..])
  }

  function DigitValue(c: char): nat {
    if IsDigit(c) then c as int - '0' as int else 0
  }

  /** The number a run of digits denotes. */
  function Number(s: string): nat {
    if s == "" then 0 else Number(s[..|s| - 1]) * 10 + DigitValue(s[|s| - 1])
  }

  /** One step of the walk: how much it reads, what it writes, and the hole it saw, if any. */
  datatype Step = Step(size: nat, text: string, holes: seq<Hole>)

  function StepOf(s: string): (p: Step)
    requires s != ""
    ensures 0 < p.size <= |s|
  {
    if IsQuote(s[0]) then
      var n := BodyLen(false, s[0], s[1..]);
      var m := if n + 1 < |s| then n + 2 else |s|;
      Step(m, s[..m], [])
    else if s[0] == '?' then
      var n := DigitLen(s[1..]);
      Step(n + 1, "?", [if n == 0 then Anonymous else Numbered(Number(s[1..n + 1]))])
    else Step(1, [s[0]], [])
  }

  function HoleText(s: string): string
    decreases |s|
  {
    if s == "" then "" else StepOf(s).text + HoleText(s[StepOf(s).size..])
  }

  function Holes(s: string): seq<Hole>
    decreases |s|
  {
    if s == "" then [] else StepOf(s).holes + Holes(s[StepOf(s).size..])
  }

  function Numbers(hs: seq<Hole>): seq<nat> {
    if hs == [] then [] else (if hs[0].Numbered? then [hs[0].n] else []) + Numbers(hs[1..])
  }

  function Anonymouses(hs: seq<Hole>): nat {
    if hs == [] then 0 else (if hs[0].Anonymous? then 1 else 0) + Anonymouses(hs[1..])
  }

  function Max(ns: seq<nat>): (m: nat)
    ensures forall i :: 0 <= i < |ns| ==> ns[i] <= m
    ensures ns != [] ==> m in ns
  {
    if ns == [] then 0
    else
      var m := Max(ns[1..]);
      assert forall i :: 1 <= i < |ns| ==> ns[i] == ns[1..][i - 1];
      if ns[0] > m || |ns| == 1 then ns[0] else m
  }

  /** The value SQLite binds to number n; there is none for 0 or past the end. */
  function ParamAt<V>(params: seq<V>, n: nat): Option<V> {
    if 1 <= n <= |params| then Some(params[n - 1]) else None
  }

  function Expand<V>(ns: seq<nat>, params: seq<V>): seq<Option<V>> {
    seq(|ns|, i requires 0 <= i < |ns| => ParamAt(params, ns[i]))
  }

  function Present<V>(params: seq<V>): seq<Option<V>> {
    seq(|params|, i requires 0 <= i < |params| => Some(params[i]))
  }

  function Rebind<V>(text: string, params: seq<V>): Outcome<V> {
    var hs := Holes(text);
    if Numbers(hs) == [] then Bound(HoleText(text), Present(params))
    else if Anonymouses(hs) > 0 then MixedForms
    else if |params| < Max(Numbers(hs)) then TooFewBound(Max(Numbers(hs)))
    else Bound(HoleText(text), Expand(Numbers(hs), params))
  }

  lemma {:induction false} HolesConcat(a: seq<Hole>, b: seq<Hole>)
    ensures Numbers(a + b) == Numbers(a) + Numbers(b)
    ensures Anonymouses(a + b) == Anonymouses(a) + Anonymouses(b)
  {
    if a == [] {
      assert a + b == b;
    } else {
      assert (a + b)[1..] == a[1..] + b;
      HolesConcat(a[1..], b);
    }
  }

  ghost predicate Walked(text: string, i: nat, out: string, order: seq<nat>, bare: nat) {
    && i <= |text|
    && out + HoleText(text[i..]) == HoleText(text)
    && order + Numbers(Holes(text[i..])) == Numbers(Holes(text))
    && bare + Anonymouses(Holes(text[i..])) == Anonymouses(Holes(text))
  }

  lemma Unfold(s: string, p: Step, r: string)
    requires s != "" && p == StepOf(s) && r == s[p.size..]
    ensures HoleText(s) == p.text + HoleText(r)
    ensures Numbers(Holes(s)) == Numbers(p.holes) + Numbers(Holes(r))
    ensures Anonymouses(Holes(s)) == Anonymouses(p.holes) + Anonymouses(Holes(r))
  {
    HolesConcat(p.holes, Holes(r));
  }

  /** One step of the walk read p, from i to j; its outputs grow accordingly. */
  lemma WalkOn(text: string, i: nat, out: string, order: seq<nat>, bare: nat, p: Step, j: nat, order': seq<nat>)
    requires i < |text| && Walked(text, i, out, order, bare)
    requires p == StepOf(text[i..]) && j == i + p.size && order' == order + Numbers(p.holes)
    ensures Walked(text, j, out + p.text, order', bare + Anonymouses(p.holes))
  {
    var r := text[j..];
    assert text[i..][p.size..] == r;
    Unfold(text[i..], p, r);
    Associate(out, p.text, HoleText(r));
    Associate(order, Numbers(p.holes), Numbers(Holes(r)));
  }

  lemma NumbersOf(order: seq<nat>, n: nat)
    ensures order + Numbers([]) == order && order + Numbers([Anonymous]) == order
    ensures order + Numbers([Numbered(n)]) == order + [n]
    ensures Anonymouses([Numbered(n)]) == 0 && Anonymouses([Anonymous]) == 1
  {
    assert [Numbered(n)][1..] == [] && [Anonymous][1..] == [];
  }

  lemma WalkStarts(text: string)
    ensures Walked(text, 0, "", [], 0)
  {
    assert text[0..] == text;
    assert "" + HoleText(text) == HoleText(text) && [] + Numbers(Holes(text)) == Numbers(Holes(text));
  }

  lemma WalkEnd(text: string, out: string, order: seq<nat>, bare: nat)
    requires Walked(text, |text|, out, order, bare)
    ensures out == HoleText(text) && order == Numbers(Holes(text)) && bare == Anonymouses(Holes(text))
  {
    assert text[|text|..] == "";
    assert out + "" == out && order + [] == order;
  }

  lemma SpanStep(text: string, i: nat, j: nat, k: nat)
    requires i < |text| && IsQuote(text[i])
    requires j == i + 1 + BodyLen(false, text[i], text[i + 1..])
    requires k == if j < |text| then j + 1 else |text|
    ensures StepOf(text[i..]) == Step(k - i, text[i..k], [])
  {
    var s := text[i..];
    assert s[1..] == text[i + 1..];
    assert s[..k - i] == text[i..k];
  }

  lemma SpanAt(text: string, i: nat, out: string, order: seq<nat>, bare: nat, j: nat, k: nat)
    requires i < |text| && Walked(text, i, out, order, bare) && IsQuote(text[i])
    requires j == i + 1 + BodyLen(false, text[i], text[i + 1..])
    requires k == if j < |text| then j + 1 else |text|
    ensures Walked(text, k, out + text[i..k], order, bare)
  {
    SpanStep(text, i, j, k);
    NumbersOf(order, 0);
    WalkOn(text, i, out, order, bare, Step(k - i, text[i..k], []), k, order);
  }

  lemma NumberStep(text: string, i: nat, j: nat)
    requires i < |text| && text[i] == '?'
    requires i + 1 < j == i + 1 + DigitLen(text[i + 1..])
    ensures StepOf(text[i..]) == Step(j - i, "?", [Numbered(Number(text[i + 1..j]))])
  {
    var s := text[i..];
    assert s[1..] == text[i + 1..];
    assert s[1..j - i] == text[i + 1..j];
  }

  lemma NumberAt(text: string, i: nat, out: string, order: seq<nat>, bare: nat, j: nat, n: nat)
    requires i < |text| && Walked(text, i, out, order, bare)
    requires j > i && StepOf(text[i..]) == Step(j - i, "?", [Numbered(n)])
    ensures Walked(text, j, out + "?", order + [n], bare)
  {
    NumbersOf(order, n);
    WalkOn(text, i, out, order, bare, Step(j - i, "?", [Numbered(n)]), j, order + [n]);
  }

  lemma BareAt(text: string, i: nat, out: string, order: seq<nat>, bare: nat)
    requires i < |text| && Walked(text, i, out, order, bare) && text[i] == '?'
    requires DigitLen(text[i + 1..]) == 0
    ensures Walked(text, i + 1, out + "?", order, bare + 1)
  {
    assert text[i..][1..] == text[i + 1..];
    NumbersOf(order, 0);
    WalkOn(text, i, out, order, bare, Step(1, "?", [Anonymous]), i + 1, order);
  }

  lemma CharAt(text: string, i: nat, out: string, order: seq<nat>, bare: nat)
    requires i < |text| && Walked(text, i, out, order, bare) && !IsQuote(text[i]) && text[i] != '?'
    ensures Walked(text, i + 1, out + [text[i]], order, bare)
  {
    NumbersOf(order, 0);
    WalkOn(text, i, out, order, bare, Step(1, [text[i]], []), i + 1, order);
  }

  method DigitEnd(text: string, i: nat) returns (j: nat)
    requires i <= |text|
    ensures j == i + DigitLen(text[i..])
  {
    j := i;
    while j < |text| && '0' <= text[j] <= '9'
      invariant i <= j <= |text|
      invariant DigitLen(text[i..]) == j - i + DigitLen(text[j..])
    {
      assert text[j..][1..] == text[j + 1..];
      j := j + 1;
    }
  }

  /** The walk: the text with its holes bare, the numbers in order, and how many holes were bare already. */
  method WalkPlaceholders(text: string) returns (out: string, order: seq<nat>, bare: nat)
    ensures out == HoleText(text) && order == Numbers(Holes(text)) && bare == Anonymouses(Holes(text))
  {
    out, order, bare := "", [], 0;
    var i := 0;
    WalkStarts(text);
    while i < |text|
      invariant Walked(text, i, out, order, bare)
    {
      var ch := text[i];
      if IsQuote(ch) {
        var j := CloseOfSpan(text, i);
        var k := if j < |text| then j + 1 else |text|;
        SpanAt(text, i, out, order, bare, j, k);
        out, i := out + text[i..k], k;
      } else if ch == '?' {
        var j := DigitEnd(text, i + 1);
        if j > i + 1 {
          var n := Number(text[i + 1..j]);
          NumberStep(text, i, j);
          NumberAt(text, i, out, order, bare, j, n);
          out, order, i := out + "?", order + [n], j;
        } else {
          BareAt(text, i, out, order, bare);
          out, bare, i := out + "?", bare + 1, j;
        }
      } else {
        CharAt(text, i, out, order, bare);
        out, i := out + [ch], i + 1;
      }
    }
    WalkEnd(text, out, order, bare);
  }

  method RebindPlaceholders<V>(text: string, params: seq<V>) returns (r: Outcome<V>)
    ensures r == Rebind(text, params)
  {
    var out, order, bare := WalkPlaceholders(text);
    if |order| == 0 {
      return Bound(out, Present(params));
    }
    if bare > 0 {
      return MixedForms;
    }
    var max := Max(order);
    if |params| < max {
      return TooFewBound(max);
    }
    return Bound(out, Expand(order, params));
  }

  // ---- What the rewriting keeps, for every statement --------------------------------------

  /** A statement as the walk sees it: copied text and holes. */
  datatype Part = Raw(text: string) | Gap

  function Shape(s: string): seq<Part>
    decreases |s|
  {
    if s == "" then []
    else [if StepOf(s).holes == [] then Raw(StepOf(s).text) else Gap] + Shape(s[StepOf(s).size..])
  }

  lemma HoleHead(s: string)
    ensures s == "" <==> HoleText(s) == ""
    ensures s != "" ==> HoleText(s)[0] == s[0]
  {
  }

  /** What the walk wrote for one step is read back as one step, its hole now anonymous. */
  lemma StepRead(s: string)
    requires s != ""
    ensures var p := StepOf(s); var u := HoleText(s[p.size..]);
      StepOf(p.text + u) == Step(|p.text|, p.text, if p.holes == [] then [] else [Anonymous])
  {
    var p := StepOf(s);
    var r := s[p.size..];
    HoleHead(r);
    if IsQuote(s[0]) {
      FirstIsSeparate(Sqlite, s);
      assert r == Rest(Sqlite, s) && p.text == Text(First(Sqlite, s));
      FirstOfText(Sqlite, First(Sqlite, s), HoleText(r));
    } else if s[0] == '?' {
      assert ("?" + HoleText(r))[1..] == HoleText(r);
      assert r != "" ==> r[0] == s[1..][DigitLen(s[1..])];
    }
  }

  lemma {:induction false} RewritingKeepsShape(s: string)
    ensures Shape(HoleText(s)) == Shape(s)
    ensures |Holes(HoleText(s))| == |Holes(s)| && forall i :: 0 <= i < |Holes(s)| ==> Holes(HoleText(s))[i] == Anonymous
    decreases |s|
  {
    if s != "" {
      var p := StepOf(s);
      var r := s[p.size..];
      StepRead(s);
      RewritingKeepsShape(r);
      assert (p.text + HoleText(r))[|p.text|..] == HoleText(r);
    }
  }

  predicate AllNumbered(hs: seq<Hole>) { forall i :: 0 <= i < |hs| ==> hs[i].Numbered? }

  predicate AllAnonymous(hs: seq<Hole>) { forall i :: 0 <= i < |hs| ==> hs[i].Anonymous? }

  lemma {:induction false} NumbersOfHoles(hs: seq<Hole>)
    ensures Numbers(hs) == [] <==> AllAnonymous(hs)
    ensures Anonymouses(hs) == 0 <==> AllNumbered(hs)
    ensures AllNumbered(hs) ==> |Numbers(hs)| == |hs| && forall i :: 0 <= i < |hs| ==> Numbers(hs)[i] == hs[i].n
  {
    if hs != [] {
      NumbersOfHoles(hs[1..]);
      assert forall i :: 1 <= i < |hs| ==> hs[i] == hs[1..][i - 1];
      assert AllAnonymous(hs) <==> hs[0].Anonymous? && AllAnonymous(hs[1..]) by {
        assert forall i :: 0 <= i < |hs| - 1 ==> hs[1..][i] == hs[i + 1];
      }
      assert AllNumbered(hs) <==> hs[0].Numbered? && AllNumbered(hs[1..]) by {
        assert forall i :: 0 <= i < |hs| - 1 ==> hs[1..][i] == hs[i + 1];
      }
    }
  }

  lemma StepUntouched(s: string)
    requires s != "" && Numbers(StepOf(s).holes) == []
    ensures StepOf(s).text == s[..StepOf(s).size]
  {
    if s[0] == '?' {
      var n := DigitLen(s[1..]);
      NumbersOf([], Number(s[1..n + 1]));
      assert n == 0;
    }
  }

  lemma {:induction false} AnonymousUntouched(s: string)
    requires Numbers(Holes(s)) == []
    ensures HoleText(s) == s
    decreases |s|
  {
    if s != "" {
      StepIsKept(s);
      AnonymousUntouched(s[StepOf(s).size..]);
      assert s == s[..StepOf(s).size] + s[StepOf(s).size..];
    }
  }

  lemma StepIsKept(s: string)
    requires s != "" && Numbers(Holes(s)) == []
    ensures Numbers(Holes(s[StepOf(s).size..])) == [] && HoleText(s) == s[..StepOf(s).size] + HoleText(s[StepOf(s).size..])
  {
    Unfold(s, StepOf(s), s[StepOf(s).size..]);
    StepUntouched(s);
  }

  /** When the rewriting is refused, and otherwise which value reaches which hole. */
  lemma RewritingBindsEveryHole<V>(text: string, params: seq<V>)
    ensures var hs := Holes(text);
      match Rebind(text, params)
      case MixedForms => !AllAnonymous(hs) && !AllNumbered(hs)
      case TooFewBound(max) => AllNumbered(hs) && max > |params| && exists k :: 0 <= k < |hs| && hs[k].n == max
      case Bound(sql, bound) =>
        && Shape(sql) == Shape(text) && |Holes(sql)| == |hs| && AllAnonymous(Holes(sql))
        && (hs != [] && AllNumbered(hs) ==>
              |bound| == |hs| && forall k :: 0 <= k < |hs| ==> hs[k].n <= |params| && bound[k] == ParamAt(params, hs[k].n))
        && (AllAnonymous(hs) ==> sql == text && bound == Present(params))
        && (AllAnonymous(hs) || AllNumbered(hs))
  {
    var hs := Holes(text);
    RewritingKeepsShape(text);
    NumbersOfHoles(hs);
    if AllAnonymous(hs) { AnonymousUntouched(text); }
    var max := Max(Numbers(hs));
    if Rebind<V>(text, params).TooFewBound? {
      var k :| 0 <= k < |hs| && Numbers(hs)[k] == max;
      assert hs[k].n == max;
    }
  }

  lemma ZeroIsUnbound<V>(hs: seq<Hole>, bound: seq<Option<V>>, params: seq<V>)
    requires |bound| == |hs| && AllNumbered(hs)
    requires forall k :: 0 <= k < |hs| ==> hs[k].n <= |params| && bound[k] == ParamAt(params, hs[k].n)
    ensures (forall v :: v in bound ==> v.Some?) <==> (forall k :: 0 <= k < |hs| ==> hs[k] != Numbered(0))
  {
    if forall k :: 0 <= k < |hs| ==> hs[k] != Numbered(0) {
      forall k | 0 <= k < |hs| ensures bound[k].Some? {}
    } else {
      var k :| 0 <= k < |hs| && hs[k] == Numbered(0);
      assert bound[k] in bound;
    }
  }

  /** A hole is left without a value exactly when the statement names parameter zero. */
  lemma OnlyZeroIsUnbound<V>(text: string, params: seq<V>)
    requires Rebind(text, params).Bound?
    ensures (forall v :: v in Rebind(text, params).params ==> v.Some?)
            <==> (forall k :: 0 <= k < |Holes(text)| ==> Holes(text)[k] != Numbered(0))
  {
    var hs := Holes(text);
    RewritingBindsEveryHole(text, params);
    if hs != [] && AllNumbered(hs) {
      ZeroIsUnbound(hs, Rebind(text, params).params, params);
    } else {
      assert AllAnonymous(hs);
    }
  }

  // ---- Holes of a statement put together from fragments ------------------------------------

  /** Every span the text opens, it closes. */
  predicate Complete(s: string)
    decreases |s|
  {
    s == "" || ((IsQuote(s[0]) ==> BodyLen(false, s[0], s[1..]) + 1 < |s|) && Complete(s[StepOf(s).size..]))
  }

  /** Text that cannot run into a fragment before it. */
  predicate Joins(b: string) { b == "" || (!IsQuote(b[0]) && !IsDigit(b[0])) }

  /** On a quoted span the walk takes one token. */
  lemma SpanIsToken(s: string)
    requires s != "" && IsQuote(s[0])
    ensures var t := First(Sqlite, s);
      t.Span? && StepOf(s) == Step(|Text(t)|, Text(t), []) && Rest(Sqlite, s) == s[|Text(t)|..]
      && (t.closed <==> BodyLen(false, s[0], s[1..]) + 1 < |s|)
  {
  }

  lemma SpanThenMore(a: string, b: string)
    requires a != "" && IsQuote(a[0]) && First(Sqlite, a).closed && Joins(b)
    ensures First(Sqlite, a + b) == First(Sqlite, a) && Rest(Sqlite, a + b) == Rest(Sqlite, a) + b
  {
    var t, r := First(Sqlite, a), Rest(Sqlite, a);
    FirstIsSeparate(Sqlite, a);
    FirstOfText(Sqlite, t, r + b);
    Associate(Text(t), r, b);
  }

  lemma HoleStep(s: string, n: nat, digits: string)
    requires s != "" && s[0] == '?' && n == DigitLen(s[1..]) && digits == s[1..n + 1]
    ensures StepOf(s) == Step(n + 1, "?", [if n == 0 then Anonymous else Numbered(Number(digits))])
  {
  }

  lemma HoleSlices(a: string, b: string, n: nat)
    requires a != "" && n + 1 <= |a|
    ensures (a + b)[1..] == a[1..] + b && (a + b)[1..n + 1] == a[1..n + 1]
  {
  }

  lemma HoleThenMore(a: string, b: string)
    requires a != "" && a[0] == '?' && Joins(b)
    ensures StepOf(a + b) == StepOf(a)
  {
    var n := DigitLen(a[1..]);
    DigitsThenMore(a[1..], b);
    HoleSlices(a, b, n);
    HoleStep(a, n, a[1..n + 1]);
    HoleStep(a + b, n, a[1..n + 1]);
  }

  lemma StepThenMore(a: string, b: string)
    requires a != "" && Complete(a) && Joins(b)
    ensures StepOf(a + b) == StepOf(a) && (a + b)[StepOf(a).size..] == a[StepOf(a).size..] + b
    ensures IsQuote(a[0]) ==> BodyLen(false, a[0], (a + b)[1..]) + 1 < |a + b|
  {
    if IsQuote(a[0]) {
      SpanIsToken(a);
      SpanThenMore(a, b);
      SpanIsToken(a + b);
    } else if a[0] == '?' {
      HoleThenMore(a, b);
    }
    SliceThenMore(a, b, StepOf(a).size);
  }

  lemma SliceThenMore(a: string, b: string, n: nat)
    requires n <= |a|
    ensures (a + b)[n..] == a[n..] + b
  {
  }

  lemma {:induction false} DigitsThenMore(u: string, b: string)
    requires b == "" || !IsDigit(b[0])
    ensures DigitLen(u + b) == DigitLen(u)
    decreases |u|
  {
    if u == "" {
      assert u + b == b;
    } else {
      assert (u + b)[1..] == u[1..] + b;
      DigitsThenMore(u[1..], b);
    }
  }

  lemma {:induction false} HolesJoin(a: string, b: string)
    requires Complete(a) && Joins(b)
    ensures Holes(a + b) == Holes(a) + Holes(b)
    ensures Complete(b) ==> Complete(a + b)
    decreases |a|
  {
    if a == "" {
      assert a + b == b;
    } else {
      var p := StepOf(a);
      StepThenMore(a, b);
      HolesJoin(a[p.size..], b);
      Associate(p.holes, Holes(a[p.size..]), Holes(b));
    }
  }

  predicate Plain(s: string) { forall k :: 0 <= k < |s| ==> !IsQuote(s[k]) && s[k] != '?' }

  lemma {:induction false} PlainHoles(s: string)
    requires Plain(s)
    ensures Complete(s) && Holes(s) == []
    decreases |s|
  {
    if s != "" { PlainHoles(s[1..]); }
  }

  lemma CharHasNoHole(c: char, r: string)
    requires !IsQuote(c) && c != '?'
    ensures HoleText([c] + r) == [c] + HoleText(r) && Holes([c] + r) == Holes(r)
    ensures Complete(r) ==> Complete([c] + r)
  {
    assert ([c] + r)[1..] == r;
    assert [] + Holes(r) == Holes(r);
  }

  lemma {:induction false} PlainThenMore(a: string, b: string)
    requires Plain(a)
    ensures Holes(a + b) == Holes(b) && (Complete(b) ==> Complete(a + b))
    decreases |a|
  {
    if a == "" {
      assert a + b == b;
    } else {
      PlainThenMore(a[1..], b);
      SplitOne(a, b);
      CharHasNoHole(a[0], a[1..] + b);
    }
  }

  /** Text that holds n bare placeholders and leaves no quote open. */
  predicate Fragment(s: string, n: nat) {
    Complete(s) && Holes(s) == seq(n, i => Anonymous)
  }

  lemma FragmentJoin(a: string, n: nat, b: string, m: nat)
    requires Fragment(a, n) && Fragment(b, m) && Joins(b)
    ensures Fragment(a + b, n + m)
  {
    HolesJoin(a, b);
  }

  lemma PlainFragment(a: string, b: string, m: nat)
    requires Plain(a) && Fragment(b, m)
    ensures Fragment(a + b, m)
  {
    PlainThenMore(a, b);
  }

  lemma NoHoles(s: string)
    requires Plain(s)
    ensures Fragment(s, 0)
  {
    PlainHoles(s);
  }

  lemma OneHole(s: string)
    requires Plain(s) && Joins(s)
    ensures Fragment("?" + s, 1)
  {
    PlainHoles(s);
    assert ("?" + s)[1..] == s;
    assert DigitLen(s) == 0;
    assert Holes("?" + s) == [Anonymous];
  }
}
