/** Add-ons, and setup fees charged once, ever. */
module AddOns {
  import opened Wrappers

  datatype Status = Active | Trialing | Suspended | Cancelled | PendingPayment

  predicate Running(s: Status) { s.Active? || s.Trialing? }

  /** An add-on of the catalogue as it stands when a request reads it. */
  datatype AddOn = AddOn(id: string, setupFee: nat, available: bool)

  datatype Sub = Sub(addOn: string, status: Status, charged: bool)

  datatype Source = Subscription | Setup

  datatype Line = Line(source: Source, addOn: string)

  /** The organisation's subscription rows and invoice lines, in the order they were written. */
  datatype State = State(subs: seq<Sub>, lines: seq<Line>)

  datatype Op =
    | Activate(addOn: Option<AddOn>, acknowledged: bool)
    | Deactivate(target: Option<AddOn>)
    | Bundle(addOns: seq<AddOn>, acknowledged: bool)

  datatype Outcome = Done | NotFound | Conflict

  /** The first row of an add-on, or the number of rows if there is none. */
  function Find(subs: seq<Sub>, id: string): (n: nat)
    ensures n <= |subs|
    ensures n < |subs| ==> subs[n].addOn == id
    ensures forall i :: 0 <= i < n ==> subs[i].addOn != id
  {
    if subs == [] || subs[0].addOn == id then 0 else 1 + Find(subs[1..], id)
  }

  predicate IsRunning(subs: seq<Sub>, id: string) {
    Find(subs, id) < |subs| && Running(subs[Find(subs, id)].status)
  }

  predicate Charged(subs: seq<Sub>, id: string) {
    Find(subs, id) < |subs| && subs[Find(subs, id)].charged
  }

  /** Whether switching the add-on on now charges its setup fee. */
  predicate Charges(subs: seq<Sub>, a: AddOn) { a.setupFee > 0 && !Charged(subs, a.id) }

  /** The rows once an add-on that is not running is switched on. */
  function SwitchOn(subs: seq<Sub>, a: AddOn): seq<Sub> {
    var n := Find(subs, a.id);
    if n < |subs| then subs[n := subs[n].(status := Active, charged := subs[n].charged || Charges(subs, a))]
    else subs + [Sub(a.id, Active, Charges(subs, a))]
  }

  /** The invoice lines that go with it. */
  function LinesFor(subs: seq<Sub>, a: AddOn): seq<Line> {
    [Line(Subscription, a.id)] + (if Charges(subs, a) then [Line(Setup, a.id)] else [])
  }

  /** Every add-on of a list in turn, those already running skipped. */
  function SwitchAllOn(st: State, addOns: seq<AddOn>): State
    decreases |addOns|
  {
    if addOns == [] then st
    else
      var n := |addOns| - 1;
      var before, a := SwitchAllOn(st, addOns[..n]), addOns[n];
      if IsRunning(before.subs, a.id) then before
      else State(SwitchOn(before.subs, a), before.lines + LinesFor(before.subs, a))
  }

  function TotalSetup(addOns: seq<AddOn>): nat {
    if addOns == [] then 0 else TotalSetup(addOns[..|addOns| - 1]) + addOns[|addOns| - 1].setupFee
  }

  function Step(st: State, op: Op): (State, Outcome) {
    match op
    case Activate(addOn, acknowledged) =>
      if addOn == None then (st, NotFound)
      else
        var a := addOn.value;
        if !a.available || IsRunning(st.subs, a.id) || (Charges(st.subs, a) && !acknowledged) then (st, Conflict)
        else (State(SwitchOn(st.subs, a), st.lines + LinesFor(st.subs, a)), Done)
    case Deactivate(target) =>
      if target == None then (st, NotFound)
      else if !IsRunning(st.subs, target.value.id) then (st, Conflict)
      else
        var n := Find(st.subs, target.value.id);
        (st.(subs := st.subs[n := st.subs[n].(status := Cancelled)]), Done)
    case Bundle(addOns, acknowledged) =>
      if TotalSetup(addOns) > 0 && !acknowledged then (st, Conflict) else (SwitchAllOn(st, addOns), Done)
  }

  // ---- The handlers ------------------------------------------------------------------------

  class Store {
    var subs: seq<Sub>
    var lines: seq<Line>

    function Now(): State
      reads this
    {
      State(subs, lines)
    }

    constructor ()
      ensures Now() == State([], [])
    {
      subs, lines := [], [];
    }

    method Activate(addOn: Option<AddOn>, acknowledged: bool) returns (r: Outcome)
      modifies this
      ensures (Now(), r) == Step(old(Now()), Op.Activate(addOn, acknowledged))
    {
      if addOn == None { return NotFound; }
      var a := addOn.value;
      if !a.available { return Conflict; }
      var n := Find(subs, a.id);
      if n < |subs| && Running(subs[n].status) { return Conflict; }
      var chargeSetupFee := a.setupFee > 0 && !(n < |subs| && subs[n].charged);
      if chargeSetupFee && !acknowledged { return Conflict; }
      ghost var more := LinesFor(subs, a);
      if n < |subs| {
        subs := subs[n := subs[n].(status := Active, charged := if chargeSetupFee then true else subs[n].charged)];
      } else {
        subs := subs + [Sub(a.id, Active, chargeSetupFee)];
      }
      var items := [Line(Subscription, a.id)];
      if chargeSetupFee {
        items := items + [Line(Setup, a.id)];
      }
      assert items == more;
      lines := lines + items;
      return Done;
    }

    method Deactivate(addOn: Option<AddOn>) returns (r: Outcome)
      modifies this
      ensures (Now(), r) == Step(old(Now()), Op.Deactivate(addOn))
    {
      if addOn == None { return NotFound; }
      var n := Find(subs, addOn.value.id);
      if n == |subs| || !Running(subs[n].status) { return Conflict; }
      subs := subs[n := subs[n].(status := Cancelled)];
      return Done;
    }

    method Bundle(addOns: seq<AddOn>, acknowledged: bool) returns (r: Outcome)
      modifies this
      ensures (Now(), r) == Step(old(Now()), Op.Bundle(addOns, acknowledged))
    {
      if TotalSetup(addOns) > 0 && !acknowledged { return Conflict; }
      var items: seq<Line> := [];
      for k := 0 to |addOns|
        invariant lines == old(lines)
        invariant State(subs, lines + items) == SwitchAllOn(old(Now()), addOns[..k])
      {
        var a := addOns[k];
        assert addOns[..k + 1][..k] == addOns[..k] && addOns[..k + 1][k] == a;
        var n := Find(subs, a.id);
        if n < |subs| && Running(subs[n].status) { continue; }
        ghost var more := LinesFor(subs, a);
        var chargeSetup := a.setupFee > 0 && !(n < |subs| && subs[n].charged);
        if n < |subs| {
          subs := subs[n := subs[n].(status := Active, charged := if chargeSetup then true else subs[n].charged)];
        } else {
          subs := subs + [Sub(a.id, Active, chargeSetup)];
        }
        ghost var before := items;
        items := items + [Line(Subscription, a.id)];
        if chargeSetup {
          items := items + [Line(Setup, a.id)];
        }
        assert items == before + more;
        assert lines + (before + more) == (lines + before) + more;
      }
      assert addOns[..|addOns|] == addOns;
      lines := lines + items;
      return Done;
    }
  }

  // ---- Counting lines ----------------------------------------------------------------------

  function CountOf(lines: seq<Line>, l: Line): nat {
    if lines == [] then 0
    else CountOf(lines[..|lines| - 1], l) + (if lines[|lines| - 1] == l then 1 else 0)
  }

  lemma CountAppend(lines: seq<Line>, l: Line, k: Line)
    ensures CountOf(lines + [l], k) == CountOf(lines, k) + (if l == k then 1 else 0)
  {
    assert (lines + [l])[..|lines|] == lines;
  }

  lemma CountLinesFor(lines: seq<Line>, subs: seq<Sub>, a: AddOn, id: string)
    ensures CountOf(lines + LinesFor(subs, a), Line(Subscription, id))
            == CountOf(lines, Line(Subscription, id)) + (if a.id == id then 1 else 0)
    ensures CountOf(lines + LinesFor(subs, a), Line(Setup, id))
            == CountOf(lines, Line(Setup, id)) + (if a.id == id && Charges(subs, a) then 1 else 0)
  {
    var one := [Line(Subscription, a.id)];
    CountAppend(lines, Line(Subscription, a.id), Line(Subscription, id));
    CountAppend(lines, Line(Subscription, a.id), Line(Setup, id));
    if Charges(subs, a) {
      CountAppend(lines + one, Line(Setup, a.id), Line(Subscription, id));
      CountAppend(lines + one, Line(Setup, a.id), Line(Setup, id));
      assert lines + LinesFor(subs, a) == (lines + one) + [Line(Setup, a.id)];
    } else {
      assert lines + LinesFor(subs, a) == lines + one;
    }
  }

  // ---- What every step keeps ---------------------------------------------------------------

  predicate OneRowEach(subs: seq<Sub>) {
    forall i, j :: 0 <= i < j < |subs| ==> subs[i].addOn != subs[j].addOn
  }

  /** An add-on's row says it was charged exactly when its one setup line exists; without a row there is none. */
  predicate ChargedOnce(st: State, id: string) {
    CountOf(st.lines, Line(Setup, id)) == (if Charged(st.subs, id) then 1 else 0)
  }

  ghost predicate Good(st: State) { OneRowEach(st.subs) && forall id :: ChargedOnce(st, id) }

  lemma SwitchedOn(subs: seq<Sub>, a: AddOn, id: string)
    requires OneRowEach(subs)
    ensures OneRowEach(SwitchOn(subs, a))
    ensures IsRunning(SwitchOn(subs, a), id) <==> a.id == id || IsRunning(subs, id)
    ensures Charged(SwitchOn(subs, a), id) <==> (a.id == id && Charges(subs, a)) || Charged(subs, id)
  {
    var n, m, after := Find(subs, a.id), Find(subs, id), SwitchOn(subs, a);
    FindIs(after, id, if m < |subs| then m else if a.id == id then n else |after|);
  }

  /** The first row of an add-on is the only place it can be. */
  lemma FindIs(subs: seq<Sub>, id: string, n: nat)
    requires n <= |subs| && (n < |subs| ==> subs[n].addOn == id)
    requires forall i :: 0 <= i < |subs| && i != n ==> subs[i].addOn != id
    ensures Find(subs, id) == n
  {
  }

  lemma OneSwitchKeeps(st: State, a: AddOn)
    requires Good(st)
    ensures Good(State(SwitchOn(st.subs, a), st.lines + LinesFor(st.subs, a)))
  {
    var c := State(SwitchOn(st.subs, a), st.lines + LinesFor(st.subs, a));
    SwitchedOn(st.subs, a, a.id);
    forall id ensures ChargedOnce(c, id) {
      assert ChargedOnce(st, id);
      SwitchedOn(st.subs, a, id);
      CountLinesFor(st.lines, st.subs, a, id);
    }
  }

  /** How many times a step took an add-on from not running to running: once or not at all. */
  function Started(st: State, op: Op, id: string): nat {
    if !IsRunning(st.subs, id) && IsRunning(Step(st, op).0.subs, id) then 1 else 0
  }

  lemma {:induction false} SwitchAllKeeps(st: State, addOns: seq<AddOn>, id: string)
    requires Good(st)
    ensures var c := SwitchAllOn(st, addOns);
      && Good(c)
      && (IsRunning(st.subs, id) ==> IsRunning(c.subs, id))
      && CountOf(c.lines, Line(Subscription, id))
         == CountOf(st.lines, Line(Subscription, id)) + (if !IsRunning(st.subs, id) && IsRunning(c.subs, id) then 1 else 0)
    decreases |addOns|
  {
    if addOns != [] {
      var n := |addOns| - 1;
      var before, a := SwitchAllOn(st, addOns[..n]), addOns[n];
      SwitchAllKeeps(st, addOns[..n], id);
      if !IsRunning(before.subs, a.id) {
        OneSwitchKeeps(before, a);
        SwitchedOn(before.subs, a, id);
        CountLinesFor(before.lines, before.subs, a, id);
      }
    }
  }

  lemma SwitchedOff(subs: seq<Sub>, n: nat, id: string)
    requires OneRowEach(subs) && n < |subs|
    ensures var after := subs[n := subs[n].(status := Cancelled)];
      OneRowEach(after) && (Charged(after, id) <==> Charged(subs, id))
      && (IsRunning(after, id) ==> IsRunning(subs, id))
  {
    var after := subs[n := subs[n].(status := Cancelled)];
    FindIs(after, id, Find(subs, id));
  }

  /**
   Every step keeps one row for each add-on and its setup fee charged at most once, and writes
   a subscription line exactly when it starts the add-on.
   */
  lemma StepKeeps(st: State, op: Op, id: string)
    requires Good(st)
    ensures Good(Step(st, op).0)
    ensures CountOf(Step(st, op).0.lines, Line(Subscription, id))
            == CountOf(st.lines, Line(Subscription, id)) + Started(st, op, id)
  {
    var c := Step(st, op).0;
    match op
    case Activate(addOn, acknowledged) =>
      if c != st {
        OneSwitchKeeps(st, addOn.value);
        SwitchedOn(st.subs, addOn.value, id);
        CountLinesFor(st.lines, st.subs, addOn.value, id);
      }
    case Deactivate(target) =>
      if c != st {
        var n := Find(st.subs, target.value.id);
        SwitchedOff(st.subs, n, id);
        forall other ensures ChargedOnce(c, other) {
          assert ChargedOnce(st, other);
          SwitchedOff(st.subs, n, other);
        }
      }
    case Bundle(addOns, acknowledged) => SwitchAllKeeps(st, addOns, id);
  }

  function Run(st: State, ops: seq<Op>): State
    decreases |ops|
  {
    if ops == [] then st else Run(Step(st, ops[0]).0, ops[1..])
  }

  function Starts(st: State, ops: seq<Op>, id: string): nat
    decreases |ops|
  {
    if ops == [] then 0 else Started(st, ops[0], id) + Starts(Step(st, ops[0]).0, ops[1..], id)
  }

  lemma {:induction false} RunKeeps(st: State, ops: seq<Op>, id: string)
    requires Good(st)
    ensures Good(Run(st, ops))
    ensures CountOf(Run(st, ops).lines, Line(Subscription, id))
            == CountOf(st.lines, Line(Subscription, id)) + Starts(st, ops, id)
    decreases |ops|
  {
    if ops != [] {
      StepKeeps(st, ops[0], id);
      RunKeeps(Step(st, ops[0]).0, ops[1..], id);
    }
  }

  // ---- When the setup fee is charged -------------------------------------------------------

  /** The setup fee an operation brings for an add-on: that of the first one in it with the id. */
  function FeeOf(addOns: seq<AddOn>, id: string): nat {
    if addOns == [] then 0 else if addOns[0].id == id then addOns[0].setupFee else FeeOf(addOns[1..], id)
  }

  function FeeIn(op: Op, id: string): nat {
    match op
    case Activate(addOn, _) => if addOn.Some? then FeeOf([addOn.value], id) else 0
    case Deactivate(_) => 0
    case Bundle(addOns, _) => FeeOf(addOns, id)
  }

  function SetupLines(st: State, id: string): nat { CountOf(st.lines, Line(Setup, id)) }

  lemma {:induction false} FeeOfMore(addOns: seq<AddOn>, a: AddOn, id: string)
    ensures FeeOf(addOns + [a], id)
            == if exists k :: 0 <= k < |addOns| && addOns[k].id == id then FeeOf(addOns, id) else if a.id == id then a.setupFee else 0
    decreases |addOns|
  {
    if addOns == [] {
      assert addOns + [a] == [a];
    } else {
      assert (addOns + [a])[1..] == addOns[1..] + [a];
      FeeOfMore(addOns[1..], a, id);
      if addOns[0].id != id {
        assert (exists k :: 0 <= k < |addOns| && addOns[k].id == id)
               <==> exists k :: 0 <= k < |addOns[1..]| && addOns[1..][k].id == id by {
          forall k | 0 <= k < |addOns| - 1 ensures addOns[1..][k] == addOns[k + 1] {}
          if k :| 0 <= k < |addOns| && addOns[k].id == id { assert addOns[1..][k - 1].id == id; }
        }
      }
    }
  }

  /** One add-on switched on: its setup line is written exactly if it has a fee and no such line yet. */
  lemma SwitchCharges(st: State, a: AddOn, id: string)
    requires Good(st)
    ensures var c := State(SwitchOn(st.subs, a), st.lines + LinesFor(st.subs, a));
      SetupLines(c, id) == if a.id == id && a.setupFee > 0 && SetupLines(st, id) == 0 then 1 else SetupLines(st, id)
  {
    assert ChargedOnce(st, id);
    CountLinesFor(st.lines, st.subs, a, id);
  }

  lemma {:induction false} BundleCharges(st: State, addOns: seq<AddOn>, id: string)
    requires Good(st)
    ensures var c := SwitchAllOn(st, addOns);
      && Good(c)
      && (IsRunning(c.subs, id) <==> IsRunning(st.subs, id) || exists k :: 0 <= k < |addOns| && addOns[k].id == id)
      && SetupLines(c, id)
         == if !IsRunning(st.subs, id) && FeeOf(addOns, id) > 0 && SetupLines(st, id) == 0 then 1 else SetupLines(st, id)
    decreases |addOns|
  {
    if addOns != [] {
      var n := |addOns| - 1;
      var init, a := addOns[..n], addOns[n];
      assert addOns == init + [a];
      BundleCharges(st, init, id);
      FeeOfMore(init, a, id);
      BundleStep(st, init, a, id);
    }
  }

  lemma {:induction false} NoFeeWithout(addOns: seq<AddOn>, id: string)
    requires forall k :: 0 <= k < |addOns| ==> addOns[k].id != id
    ensures FeeOf(addOns, id) == 0
  {
    if addOns != [] { NoFeeWithout(addOns[1..], id); }
  }

  lemma BundleStep(st: State, init: seq<AddOn>, a: AddOn, id: string)
    requires Good(st)
    requires var before := SwitchAllOn(st, init);
      && Good(before)
      && (IsRunning(before.subs, id) <==> IsRunning(st.subs, id) || exists k :: 0 <= k < |init| && init[k].id == id)
      && SetupLines(before, id)
         == if !IsRunning(st.subs, id) && FeeOf(init, id) > 0 && SetupLines(st, id) == 0 then 1 else SetupLines(st, id)
    requires FeeOf(init + [a], id)
             == if exists k :: 0 <= k < |init| && init[k].id == id then FeeOf(init, id) else if a.id == id then a.setupFee else 0
    ensures var c := SwitchAllOn(st, init + [a]);
      && Good(c)
      && (IsRunning(c.subs, id) <==> IsRunning(st.subs, id) || exists k :: 0 <= k < |init + [a]| && (init + [a])[k].id == id)
      && SetupLines(c, id)
         == if !IsRunning(st.subs, id) && FeeOf(init + [a], id) > 0 && SetupLines(st, id) == 0 then 1 else SetupLines(st, id)
  {
    var all, before := init + [a], SwitchAllOn(st, init);
    assert all[..|init|] == init && all[|init|] == a;
    OneMoreId(init, a, id);
    if !(exists k :: 0 <= k < |init| && init[k].id == id) { NoFeeWithout(init, id); }
    if !IsRunning(before.subs, a.id) {
      OneSwitchKeeps(before, a);
      SwitchedOn(before.subs, a, id);
      SwitchCharges(before, a, id);
    }
  }

  lemma OneMoreId(init: seq<AddOn>, a: AddOn, id: string)
    ensures (exists k :: 0 <= k < |init + [a]| && (init + [a])[k].id == id)
            <==> a.id == id || exists k :: 0 <= k < |init| && init[k].id == id
  {
    var all := init + [a];
    assert all[|init|] == a;
    forall k | 0 <= k < |init| ensures all[k] == init[k] {}
  }

  /**
   A step writes a setup line exactly when it starts the add-on, the fee is positive and none was
   written before; no step takes one away.
   */
  lemma SetupIsCharged(st: State, op: Op, id: string)
    requires Good(st)
    ensures SetupLines(Step(st, op).0, id)
            == if Started(st, op, id) == 1 && FeeIn(op, id) > 0 && SetupLines(st, id) == 0 then 1 else SetupLines(st, id)
  {
    var c := Step(st, op).0;
    match op
    case Activate(addOn, acknowledged) =>
      if c != st {
        SwitchedOn(st.subs, addOn.value, id);
        SwitchCharges(st, addOn.value, id);
      }
    case Deactivate(target) =>
      if c != st { SwitchedOff(st.subs, Find(st.subs, target.value.id), id); }
    case Bundle(addOns, acknowledged) =>
      BundleCharges(st, addOns, id);
      if !(exists k :: 0 <= k < |addOns| && addOns[k].id == id) { NoFeeWithout(addOns, id); }
  }

  /** Some step of the run starts the add-on at a moment when it has a fee. */
  predicate StartedForAFee(st: State, ops: seq<Op>, id: string)
    decreases |ops|
  {
    ops != [] && ((Started(st, ops[0], id) == 1 && FeeIn(ops[0], id) > 0) || StartedForAFee(Step(st, ops[0]).0, ops[1..], id))
  }

  lemma {:induction false} RunCharges(st: State, ops: seq<Op>, id: string)
    requires Good(st)
    ensures SetupLines(Run(st, ops), id) > 0 <==> SetupLines(st, id) > 0 || StartedForAFee(st, ops, id)
    decreases |ops|
  {
    if ops != [] {
      StepKeeps(st, ops[0], id);
      SetupIsCharged(st, ops[0], id);
      RunCharges(Step(st, ops[0]).0, ops[1..], id);
    }
  }

  /** A row of the add-on that is active or on trial. */
  predicate HasRunningRow(subs: seq<Sub>, id: string) {
    exists i :: 0 <= i < |subs| && subs[i].addOn == id && (subs[i].status == Active || subs[i].status == Trialing)
  }

  lemma RunningRow(subs: seq<Sub>, id: string)
    requires OneRowEach(subs)
    ensures IsRunning(subs, id) <==> HasRunningRow(subs, id)
  {
    var n := Find(subs, id);
    if HasRunningRow(subs, id) {
      var i :| 0 <= i < |subs| && subs[i].addOn == id && (subs[i].status == Active || subs[i].status == Trialing);
      assert i == n;
    }
  }

  /**
   An activation goes through exactly when the add-on is known, available and not running, and a fee
   that has not been charged is acknowledged. It then runs, and the invoice has its subscription and,
   exactly for such a fee, its setup.
   */
  lemma ActivatedExactlyWhen(st: State, addOn: Option<AddOn>, acknowledged: bool)
    requires Good(st)
    ensures var (c, r) := Step(st, Activate(addOn, acknowledged));
      if addOn.Some? && addOn.value.available && !HasRunningRow(st.subs, addOn.value.id)
         && (addOn.value.setupFee > 0 && SetupLines(st, addOn.value.id) == 0 ==> acknowledged) then
        var a := addOn.value;
        && r == Done && HasRunningRow(c.subs, a.id)
        && c.lines == st.lines + ([Line(Subscription, a.id)]
                                  + if a.setupFee > 0 && SetupLines(st, a.id) == 0 then [Line(Setup, a.id)] else [])
      else c == st && r == if addOn == None then NotFound else Conflict
  {
    if addOn.Some? {
      var a := addOn.value;
      RunningRow(st.subs, a.id);
      assert ChargedOnce(st, a.id);
      SwitchedOn(st.subs, a, a.id);
      RunningRow(SwitchOn(st.subs, a), a.id);
    }
  }

  lemma {:induction false} SomeFee(addOns: seq<AddOn>)
    ensures TotalSetup(addOns) > 0 <==> exists k :: 0 <= k < |addOns| && addOns[k].setupFee > 0
    decreases |addOns|
  {
    if addOns != [] {
      var n := |addOns| - 1;
      SomeFee(addOns[..n]);
      if TotalSetup(addOns[..n]) > 0 {
        var k :| 0 <= k < |addOns[..n]| && addOns[..n][k].setupFee > 0;
        assert addOns[k].setupFee > 0;
      }
      if k :| 0 <= k < |addOns| && addOns[k].setupFee > 0 {
        assert k < n ==> addOns[..n][k].setupFee > 0;
      }
    }
  }

  /** A bundle is refused exactly when it has any fee and none is acknowledged, charged before or not; else all of it runs. */
  lemma BundledExactlyWhen(st: State, addOns: seq<AddOn>, acknowledged: bool, id: string)
    requires Good(st)
    ensures var (c, r) := Step(st, Bundle(addOns, acknowledged));
      if acknowledged || forall k :: 0 <= k < |addOns| ==> addOns[k].setupFee == 0 then
        r == Done
        && (HasRunningRow(c.subs, id) <==> HasRunningRow(st.subs, id) || exists k :: 0 <= k < |addOns| && addOns[k].id == id)
      else c == st && r == Conflict
  {
    SomeFee(addOns);
    BundleCharges(st, addOns, id);
    RunningRow(st.subs, id);
    RunningRow(SwitchAllOn(st, addOns).subs, id);
  }

  /** A deactivation goes through exactly when the add-on runs; it then does not, and nothing is written. */
  lemma DeactivatedExactlyWhen(st: State, target: Option<AddOn>)
    requires Good(st)
    ensures var (c, r) := Step(st, Deactivate(target));
      if target.Some? && HasRunningRow(st.subs, target.value.id) then
        r == Done && !HasRunningRow(c.subs, target.value.id) && c.lines == st.lines
      else c == st && r == if target == None then NotFound else Conflict
  {
    if target.Some? {
      var id := target.value.id;
      var n := Find(st.subs, id);
      RunningRow(st.subs, id);
      if n < |st.subs| {
        SwitchedOff(st.subs, n, id);
        FindIs(st.subs[n := st.subs[n].(status := Cancelled)], id, n);
        RunningRow(st.subs[n := st.subs[n].(status := Cancelled)], id);
      }
    }
  }

  /**
   Over every run from an empty account: an add-on has at most one row and at most one setup line,
   its row says charged exactly when that line exists, the line exists exactly when the add-on was
   started at some moment when it had a fee, and it was billed for a period exactly as often as it was
   started.
   */
  lemma SetupIsChargedOnce(ops: seq<Op>, id: string)
    ensures var c := Run(State([], []), ops);
      && (forall i, j :: 0 <= i < |c.subs| && 0 <= j < |c.subs| && c.subs[i].addOn == c.subs[j].addOn ==> i == j)
      && CountOf(c.lines, Line(Setup, id)) <= 1
      && (Charged(c.subs, id) <==> CountOf(c.lines, Line(Setup, id)) == 1)
      && (CountOf(c.lines, Line(Setup, id)) == 1 <==> StartedForAFee(State([], []), ops, id))
      && CountOf(c.lines, Line(Subscription, id)) == Starts(State([], []), ops, id)
  {
    assert Good(State([], []));
    RunKeeps(State([], []), ops, id);
    RunCharges(State([], []), ops, id);
    assert ChargedOnce(Run(State([], []), ops), id);
  }
}
