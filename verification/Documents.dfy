/** Documents, their versions and their locks. */
module Documents {
  import opened Wrappers

  datatype Status =
    | Draft | Submitted | UnderReview | QueryRaised | AwaitingClient | Verified | Approved | Rejected | Archived

  datatype Document = Document(current: nat, versionCount: nat, status: Status, locked: bool, deleted: bool)

  datatype Version = Version(id: nat, document: nat, no: nat, replaced: Option<nat>, current: bool)

  /** The two tables, and the next id that has not been handed out. */
  datatype State = State(docs: map<nat, Document>, versions: seq<Version>, next: nat)

  datatype Decision = Approve | Reject | RequestChanges | RaiseAQuery

  datatype Op =
    | Upload(accepted: bool)
    | Replace(doc: nat, visible: bool, accepted: bool)
    | Open(doc: nat)
    | Decide(doc: nat, decision: Decision, complete: bool, lockOnApprove: bool)
    | Lock(doc: nat, locked: bool)
    | Archive(doc: nat)
    | ArchivePackage(package: set<nat>)
    | Delete(doc: nat, visible: bool, mayArchive: bool, isClient: bool)
    | RaiseQuery(doc: nat)
    | ResolveQuery(doc: nat)

  datatype Outcome = Done | NotFound | Forbidden | BadRequest

  function Transitions(from: Status): set<Status> {
    match from
    case Draft => {Submitted, Archived}
    case Submitted => {UnderReview, QueryRaised, Verified, Rejected, Archived}
    case UnderReview => {Verified, Rejected, QueryRaised, Submitted}
    case QueryRaised => {AwaitingClient, UnderReview, Verified, Rejected}
    case AwaitingClient => {Submitted, UnderReview, QueryRaised, Rejected}
    case Verified => {Approved, UnderReview, Archived}
    case Approved => {Archived, UnderReview}
    case Rejected => {Submitted, UnderReview, Archived}
    case Archived => {}
  }

  predicate CanTransition(from: Status, to: Status) { from == to || to in Transitions(from) }

  function Target(d: Decision): Status {
    match d
    case Approve => Verified
    case Reject => Rejected
    case RequestChanges => AwaitingClient
    case RaiseAQuery => QueryRaised
  }

  /** Where a replaced document goes: back into review. */
  function AfterReplace(s: Status): Status {
    if s == QueryRaised || s == AwaitingClient || s == Rejected then Submitted
    else if s == Verified || s == Approved then UnderReview
    else s
  }

  /** No version of a document is the current one any more. */
  function ClearCurrent(vs: seq<Version>, doc: nat): (r: seq<Version>)
    ensures |r| == |vs|
    ensures forall k :: 0 <= k < |vs| ==> r[k] == if vs[k].document == doc then vs[k].(current := false) else vs[k]
  {
    if vs == [] then []
    else
      var n := |vs| - 1;
      ClearCurrent(vs[..n], doc) + [if vs[n].document == doc then vs[n].(current := false) else vs[n]]
  }

  predicate IsVisible(st: State, doc: nat, visible: bool) { doc in st.docs && !st.docs[doc].deleted && visible }

  function Put(st: State, doc: nat, d: Document): State { st.(docs := st.docs[doc := d]) }

  function ArchivedAll(docs: map<nat, Document>, package: set<nat>): map<nat, Document> {
    map d | d in docs :: if d in package then docs[d].(status := Archived, locked := true) else docs[d]
  }

  function Step(st: State, op: Op): (State, Outcome) {
    match op
    case Upload(accepted) =>
      if !accepted then (st, BadRequest)
      else
        var doc, version := st.next, st.next + 1;
        (State(st.docs[doc := Document(version, 1, Submitted, false, false)],
               st.versions + [Version(version, doc, 1, None, true)],
               st.next + 2), Done)
    case Replace(doc, visible, accepted) =>
      if !IsVisible(st, doc, visible) then (st, NotFound)
      else
        var d, version := st.docs[doc], st.next;
        if d.locked then (st, Forbidden)
        else if !accepted then (st, BadRequest)
        else
          (State(st.docs[doc := d.(current := version, versionCount := d.versionCount + 1, status := AfterReplace(d.status))],
                 ClearCurrent(st.versions, doc) + [Version(version, doc, d.versionCount + 1, Some(d.current), true)],
                 st.next + 1), Done)
    case Open(doc) =>
      if doc !in st.docs then (st, NotFound)
      else if st.docs[doc].status == Submitted then (Put(st, doc, st.docs[doc].(status := UnderReview)), Done)
      else (st, Done)
    case Decide(doc, decision, complete, lockOnApprove) =>
      if doc !in st.docs then (st, NotFound)
      else
        var d := st.docs[doc];
        if d.locked then (st, Forbidden)
        else if !CanTransition(d.status, Target(decision)) || !complete then (st, BadRequest)
        else (Put(st, doc, d.(status := Target(decision), locked := decision == Approve && lockOnApprove)), Done)
    case Lock(doc, locked) =>
      if doc !in st.docs then (st, NotFound)
      else if locked && st.docs[doc].status != Verified && st.docs[doc].status != Approved then (st, BadRequest)
      else (Put(st, doc, st.docs[doc].(locked := locked)), Done)
    case Archive(doc) =>
      if doc !in st.docs then (st, NotFound)
      else if !CanTransition(st.docs[doc].status, Archived) then (st, BadRequest)
      else (Put(st, doc, st.docs[doc].(status := Archived, locked := true)), Done)
    case ArchivePackage(package) => (st.(docs := ArchivedAll(st.docs, package)), Done)
    case Delete(doc, visible, mayArchive, isClient) =>
      if !IsVisible(st, doc, visible) then (st, NotFound)
      else
        var d := st.docs[doc];
        if d.locked then (st, Forbidden)
        else if d.status in {Verified, Approved, Archived} && !mayArchive then (st, Forbidden)
        else if isClient && d.status !in {Draft, Submitted} then (st, Forbidden)
        else (Put(st, doc, d.(deleted := true)), Done)
    case RaiseQuery(doc) =>
      if doc !in st.docs then (st, NotFound)
      else if st.docs[doc].status in {QueryRaised, AwaitingClient} then (st, Done)
      else (Put(st, doc, st.docs[doc].(status := QueryRaised)), Done)
    case ResolveQuery(doc) =>
      if doc in st.docs && st.docs[doc].status in {QueryRaised, AwaitingClient} then
        (Put(st, doc, st.docs[doc].(status := UnderReview)), Done)
      else (st, Done)
  }

  // ---- The handlers that write versions, locks and deletions -------------------------------

  class Library {
    var docs: map<nat, Document>
    var versions: seq<Version>
    var next: nat

    function Now(): State
      reads this
    {
      State(docs, versions, next)
    }

    constructor ()
      ensures Now() == State(map[], [], 0)
    {
      docs, versions, next := map[], [], 0;
    }

    method NewId() returns (id: nat)
      modifies this`next
      ensures id == old(next) && next == id + 1
    {
      id, next := next, next + 1;
    }

    method IngestFile(accepted: bool) returns (r: Outcome)
      modifies this
      ensures (Now(), r) == Step(old(Now()), Op.Upload(accepted))
    {
      if !accepted { return BadRequest; }
      var documentId := NewId();
      var versionId := NewId();
      docs := docs[documentId := Document(versionId, 1, Submitted, false, false)];
      versions := versions + [Version(versionId, documentId, 1, None, true)];
      return Done;
    }

    method Replace(doc: nat, visible: bool, accepted: bool) returns (r: Outcome)
      modifies this
      ensures (Now(), r) == Step(old(Now()), Op.Replace(doc, visible, accepted))
    {
      if doc !in docs || docs[doc].deleted || !visible { return NotFound; }
      var document := docs[doc];
      if document.locked { return Forbidden; }
      if !accepted { return BadRequest; }
      var versionNo := document.versionCount + 1;
      var versionId := NewId();
      versions := ClearCurrent(versions, doc);
      versions := versions + [Version(versionId, doc, versionNo, Some(document.current), true)];
      var nextStatus := if document.status in {QueryRaised, AwaitingClient, Rejected} then Submitted
        else if document.status == Verified || document.status == Approved then UnderReview else document.status;
      docs := docs[doc := document.(current := versionId, versionCount := versionNo, status := nextStatus)];
      return Done;
    }

    method Decide(doc: nat, decision: Decision, complete: bool, lockOnApprove: bool) returns (r: Outcome)
      modifies this
      ensures (Now(), r) == Step(old(Now()), Op.Decide(doc, decision, complete, lockOnApprove))
    {
      if doc !in docs { return NotFound; }
      var document := docs[doc];
      if document.locked { return Forbidden; }
      if !CanTransition(document.status, Target(decision)) { return BadRequest; }
      if !complete { return BadRequest; }
      var patched := document.(status := Target(decision));
      if decision == Approve && lockOnApprove { patched := patched.(locked := true); }
      docs := docs[doc := patched];
      return Done;
    }

    method Lock(doc: nat, locked: bool) returns (r: Outcome)
      modifies this
      ensures (Now(), r) == Step(old(Now()), Op.Lock(doc, locked))
    {
      if doc !in docs { return NotFound; }
      if locked && docs[doc].status != Verified && docs[doc].status != Approved { return BadRequest; }
      docs := docs[doc := docs[doc].(locked := locked)];
      return Done;
    }

    method Archive(doc: nat) returns (r: Outcome)
      modifies this
      ensures (Now(), r) == Step(old(Now()), Op.Archive(doc))
    {
      if doc !in docs { return NotFound; }
      if !CanTransition(docs[doc].status, Archived) { return BadRequest; }
      docs := docs[doc := docs[doc].(status := Archived, locked := true)];
      return Done;
    }

    method Delete(doc: nat, visible: bool, mayArchive: bool, isClient: bool) returns (r: Outcome)
      modifies this
      ensures (Now(), r) == Step(old(Now()), Op.Delete(doc, visible, mayArchive, isClient))
    {
      if doc !in docs || docs[doc].deleted || !visible { return NotFound; }
      if docs[doc].locked { return Forbidden; }
      if docs[doc].status in {Verified, Approved, Archived} && !mayArchive { return Forbidden; }
      if isClient && docs[doc].status !in {Draft, Submitted} { return Forbidden; }
      docs := docs[doc := docs[doc].(deleted := true)];
      return Done;
    }
  }

  // ---- The version chain -------------------------------------------------------------------

  /** A document's versions in the order they were written. */
  function VersionsOf(vs: seq<Version>, doc: nat): seq<Version> {
    if vs == [] then []
    else
      var last := vs[|vs| - 1];
      if last.document == doc then VersionsOf(vs[..|vs| - 1], doc) + [last] else VersionsOf(vs[..|vs| - 1], doc)
  }

  /**
   Versions numbered from 1 on without gaps, each replacing the one before, only the highest
   current, and that one the document's own.
   */
  ghost predicate Chained(vs: seq<Version>, d: Document) {
    && |vs| == d.versionCount >= 1
    && vs[|vs| - 1].id == d.current
    && (forall k :: 0 <= k < |vs| ==>
          vs[k].no == k + 1 && (vs[k].current <==> k == |vs| - 1) && vs[k].replaced == Before(vs, k))
  }

  function Before(vs: seq<Version>, k: nat): Option<nat>
    requires k < |vs|
  {
    if k == 0 then None else Some(vs[k - 1].id)
  }

  /** A document has its chain; an id that is no document's has no versions. */
  ghost predicate DocumentIsGood(st: State, doc: nat) {
    if doc in st.docs then doc < st.next && Chained(VersionsOf(st.versions, doc), st.docs[doc])
    else VersionsOf(st.versions, doc) == []
  }

  ghost predicate Good(st: State) { IdsAreUsedOnce(st.versions, st.next) && forall d :: DocumentIsGood(st, d) }

  ghost predicate IdsAreUsedOnce(vs: seq<Version>, next: nat) {
    && (forall k :: 0 <= k < |vs| ==> vs[k].id < next)
    && (forall i, j :: 0 <= i < j < |vs| ==> vs[i].id != vs[j].id)
  }

  lemma NewIdIsUsedOnce(vs: seq<Version>, next: nat, v: Version, doc: nat)
    requires IdsAreUsedOnce(vs, next) && v.id >= next
    ensures IdsAreUsedOnce(vs + [v], v.id + 1) && IdsAreUsedOnce(ClearCurrent(vs, doc) + [v], v.id + 1)
  {
  }

  lemma VersionAppended(vs: seq<Version>, v: Version, doc: nat)
    ensures VersionsOf(vs + [v], doc)
            == if v.document == doc then VersionsOf(vs, doc) + [v] else VersionsOf(vs, doc)
  {
    assert (vs + [v])[..|vs|] == vs;
  }

  lemma {:induction false} VersionsCleared(vs: seq<Version>, doc: nat, other: nat)
    ensures VersionsOf(ClearCurrent(vs, doc), other)
            == if doc == other then ClearCurrent(VersionsOf(vs, other), doc) else VersionsOf(vs, other)
    ensures forall k :: 0 <= k < |VersionsOf(vs, other)| ==> VersionsOf(vs, other)[k].document == other
    decreases |vs|
  {
    if vs != [] {
      var n := |vs| - 1;
      VersionsCleared(vs[..n], doc, other);
      assert ClearCurrent(vs, doc)[..n] == ClearCurrent(vs[..n], doc);
      var before, last := VersionsOf(vs[..n], other), vs[n];
      if last.document == other && doc == other {
        assert ClearCurrent(before + [last], doc) == ClearCurrent(before, doc) + [last.(current := false)];
      }
    }
  }

  lemma UploadedIsGood(st: State)
    requires DocumentIsGood(st, st.next)
    ensures DocumentIsGood(Step(st, Op.Upload(true)).0, st.next)
  {
    var v := Version(st.next + 1, st.next, 1, None, true);
    assert st.next !in st.docs;
    VersionAppended(st.versions, v, st.next);
    assert VersionsOf(st.versions, st.next) + [v] == [v];
  }

  lemma UploadKeepsDocument(st: State, d: nat)
    requires DocumentIsGood(st, d) && DocumentIsGood(st, st.next)
    ensures DocumentIsGood(Step(st, Op.Upload(true)).0, d)
  {
    if d == st.next {
      UploadedIsGood(st);
    } else {
      VersionAppended(st.versions, Version(st.next + 1, st.next, 1, None, true), d);
    }
  }

  lemma UploadKeeps(st: State)
    requires Good(st)
    ensures Good(Step(st, Op.Upload(true)).0)
  {
    NewIdIsUsedOnce(st.versions, st.next, Version(st.next + 1, st.next, 1, None, true), st.next);
    forall d ensures DocumentIsGood(Step(st, Op.Upload(true)).0, d) {
      assert DocumentIsGood(st, d) && DocumentIsGood(st, st.next);
      UploadKeepsDocument(st, d);
    }
  }

  lemma ClearedChain(vs: seq<Version>, d: Document, doc: nat, v: Version, k: nat)
    requires Chained(vs, d) && k < |vs| && forall i :: 0 <= i < |vs| ==> vs[i].document == doc
    ensures var after := ClearCurrent(vs, doc) + [v];
      after[k].no == k + 1 && !after[k].current && after[k].replaced == Before(after, k)
  {
    var after := ClearCurrent(vs, doc) + [v];
    assert after[k] == ClearCurrent(vs, doc)[k] == vs[k].(current := false);
    assert vs[k].replaced == Before(vs, k);
    if k > 0 { assert after[k - 1] == ClearCurrent(vs, doc)[k - 1] == vs[k - 1].(current := false); }
  }

  lemma ReplaceChains(vs: seq<Version>, d: Document, doc: nat, v: Version, e: Document)
    requires Chained(vs, d) && forall k :: 0 <= k < |vs| ==> vs[k].document == doc
    requires v.no == d.versionCount + 1 && v.replaced == Some(d.current) && v.current
    requires e.versionCount == v.no && e.current == v.id
    ensures Chained(ClearCurrent(vs, doc) + [v], e)
  {
    var after, n := ClearCurrent(vs, doc) + [v], |vs|;
    assert after[n] == v && after[n - 1] == ClearCurrent(vs, doc)[n - 1];
    forall k | 0 <= k < |after|
      ensures after[k].no == k + 1 && (after[k].current <==> k == |after| - 1) && after[k].replaced == Before(after, k)
    {
      if k < n { ClearedChain(vs, d, doc, v, k); }
    }
  }

  lemma VersionsAfterReplace(vs: seq<Version>, v: Version, doc: nat, e: nat)
    requires v.document == doc
    ensures VersionsOf(ClearCurrent(vs, doc) + [v], e)
            == if e == doc then ClearCurrent(VersionsOf(vs, doc), doc) + [v] else VersionsOf(vs, e)
  {
    VersionAppended(ClearCurrent(vs, doc), v, e);
    VersionsCleared(vs, doc, e);
  }

  lemma ReplaceKeepsOthers(st: State, doc: nat, e: nat)
    requires DocumentIsGood(st, e) && IsVisible(st, doc, true) && !st.docs[doc].locked && e != doc
    ensures DocumentIsGood(Step(st, Op.Replace(doc, true, true)).0, e)
  {
    var d := st.docs[doc];
    VersionsAfterReplace(st.versions, Version(st.next, doc, d.versionCount + 1, Some(d.current), true), doc, e);
  }

  lemma ReplaceStep(st: State, doc: nat)
    requires IsVisible(st, doc, true) && !st.docs[doc].locked
    ensures var d, after := st.docs[doc], Step(st, Op.Replace(doc, true, true)).0;
      && doc in after.docs && after.next == st.next + 1
      && after.docs[doc] == d.(current := st.next, versionCount := d.versionCount + 1, status := AfterReplace(d.status))
      && after.versions == ClearCurrent(st.versions, doc) + [Version(st.next, doc, d.versionCount + 1, Some(d.current), true)]
  {
  }

  lemma ReplacedVersions(st: State, doc: nat, v: Version, after: seq<Version>) returns (vs: seq<Version>)
    requires v.document == doc && after == ClearCurrent(st.versions, doc) + [v]
    ensures vs == VersionsOf(st.versions, doc) && VersionsOf(after, doc) == ClearCurrent(vs, doc) + [v]
    ensures forall k :: 0 <= k < |vs| ==> vs[k].document == doc
  {
    vs := VersionsOf(st.versions, doc);
    VersionsAfterReplace(st.versions, v, doc, doc);
    VersionsCleared(st.versions, doc, doc);
  }

  lemma ReplaceKeepsDocument(st: State, doc: nat)
    requires DocumentIsGood(st, doc) && IsVisible(st, doc, true) && !st.docs[doc].locked
    ensures DocumentIsGood(Step(st, Op.Replace(doc, true, true)).0, doc)
  {
    var d, after := st.docs[doc], Step(st, Op.Replace(doc, true, true)).0;
    var v := Version(st.next, doc, d.versionCount + 1, Some(d.current), true);
    ReplaceStep(st, doc);
    var vs := ReplacedVersions(st, doc, v, after.versions);
    ReplaceChains(vs, d, doc, v, after.docs[doc]);
  }

  lemma ReplaceKeeps(st: State, doc: nat)
    requires Good(st) && IsVisible(st, doc, true) && !st.docs[doc].locked
    ensures Good(Step(st, Op.Replace(doc, true, true)).0)
  {
    var d := st.docs[doc];
    NewIdIsUsedOnce(st.versions, st.next, Version(st.next, doc, d.versionCount + 1, Some(d.current), true), doc);
    forall e ensures DocumentIsGood(Step(st, Op.Replace(doc, true, true)).0, e) {
      assert DocumentIsGood(st, e);
      if e == doc { ReplaceKeepsDocument(st, doc); } else { ReplaceKeepsOthers(st, doc, e); }
    }
  }

  /** Every step, whatever it is refused or allowed to do, keeps the version chains. */
  lemma StepKeeps(st: State, op: Op)
    requires Good(st)
    ensures Good(Step(st, op).0)
  {
    match op
    case Upload(accepted) => if accepted { UploadKeeps(st); }
    case Replace(doc, visible, accepted) =>
      if IsVisible(st, doc, visible) && !st.docs[doc].locked && accepted { ReplaceKeeps(st, doc); }
    case _ => OthersKeep(st, op);
  }

  lemma OthersKeep(st: State, op: Op)
    requires Good(st) && !op.Upload? && !op.Replace?
    ensures Good(Step(st, op).0)
  {
    var after := Step(st, op).0;
    assert after.versions == st.versions && after.next == st.next && after.docs.Keys == st.docs.Keys;
    forall d ensures DocumentIsGood(after, d) {
      assert DocumentIsGood(st, d);
      if d in st.docs {
        assert after.docs[d].versionCount == st.docs[d].versionCount && after.docs[d].current == st.docs[d].current;
      }
    }
  }

  function Run(st: State, ops: seq<Op>): State
    decreases |ops|
  {
    if ops == [] then st else Run(Step(st, ops[0]).0, ops[1..])
  }

  lemma {:induction false} RunKeeps(st: State, ops: seq<Op>)
    requires Good(st)
    ensures Good(Run(st, ops))
    decreases |ops|
  {
    if ops != [] {
      StepKeeps(st, ops[0]);
      RunKeeps(Step(st, ops[0]).0, ops[1..]);
    }
  }

  /**
   Over every run from nothing: a document's versions are numbered 1 to its version count, exactly
   one of them is current, that one is the highest and the one the document names, and each
   replaces the version before it, back to the first.
   */
  lemma VersionsAreChained(ops: seq<Op>, doc: nat)
    requires doc in Run(State(map[], [], 0), ops).docs
    ensures var st := Run(State(map[], [], 0), ops);
      var vs := VersionsOf(st.versions, doc);
      && |vs| == st.docs[doc].versionCount >= 1
      && (forall k :: 0 <= k < |vs| ==> vs[k].no == k + 1)
      && (forall k :: 0 <= k < |vs| ==> (vs[k].current <==> vs[k].id == st.docs[doc].current))
      && vs[|vs| - 1].current
      && (forall k :: 0 < k < |vs| ==> vs[k].replaced == Some(vs[k - 1].id)) && vs[0].replaced == None
  {
    var st := Run(State(map[], [], 0), ops);
    RunKeeps(State(map[], [], 0), ops);
    var vs := VersionsOf(st.versions, doc);
    assert DocumentIsGood(st, doc);
    IdsStayDistinct(st.versions, doc);
    forall k | 0 < k < |vs| ensures vs[k].replaced == Some(vs[k - 1].id) { assert vs[k].replaced == Before(vs, k); }
    assert vs[0].replaced == Before(vs, 0);
  }

  lemma {:induction false} IdsStayDistinct(vs: seq<Version>, doc: nat)
    requires forall i, j :: 0 <= i < j < |vs| ==> vs[i].id != vs[j].id
    ensures forall v :: v in VersionsOf(vs, doc) ==> v in vs
    ensures forall i, j :: 0 <= i < j < |VersionsOf(vs, doc)| ==> VersionsOf(vs, doc)[i].id != VersionsOf(vs, doc)[j].id
    decreases |vs|
  {
    if vs != [] {
      var n := |vs| - 1;
      IdsStayDistinct(vs[..n], doc);
      var before := VersionsOf(vs[..n], doc);
      forall i | 0 <= i < |before| ensures before[i].id != vs[n].id {
        assert before[i] in vs[..n];
        var k :| 0 <= k < n && vs[..n][k] == before[i];
      }
    }
  }

  lemma StepKeepsHistory(st: State, op: Op, k: nat)
    requires k < |st.versions|
    ensures var after := Step(st, op).0.versions;
      k < |after| && after[k].(current := st.versions[k].current) == st.versions[k]
  {
  }

  /** No run ever removes a version or changes anything of it but whether it is current. */
  lemma {:induction false} HistoryIsKept(st: State, ops: seq<Op>, k: nat)
    requires k < |st.versions|
    ensures var after := Run(st, ops).versions;
      k < |after| && after[k].(current := st.versions[k].current) == st.versions[k]
    decreases |ops|
  {
    if ops != [] {
      StepKeepsHistory(st, ops[0], k);
      HistoryIsKept(Step(st, ops[0]).0, ops[1..], k);
    }
  }

  // ---- Locks -------------------------------------------------------------------------------

  /** A locked document is verified, approved or archived. */
  ghost predicate LocksAreSettled(st: State) {
    forall d :: d in st.docs && st.docs[d].locked ==> st.docs[d].status in {Verified, Approved, Archived}
  }

  /** The one thing that touches a locked document's status. */
  predicate QueriesALockedDocument(st: State, op: Op) {
    op.RaiseQuery? && op.doc in st.docs && st.docs[op.doc].locked
  }

  /** A step keeps it exactly when it does not raise a query about a document that is locked. */
  lemma LocksStaySettledUnlessQueried(st: State, op: Op)
    requires LocksAreSettled(st)
    ensures LocksAreSettled(Step(st, op).0) <==> !QueriesALockedDocument(st, op)
  {
    var after := Step(st, op).0;
    if QueriesALockedDocument(st, op) {
      assert after.docs[op.doc].locked && after.docs[op.doc].status == QueryRaised;
    } else {
      forall d | d in after.docs && after.docs[d].locked ensures after.docs[d].status in {Verified, Approved, Archived} {
      }
    }
  }

  ghost predicate NoQueryOnALock(st: State, ops: seq<Op>)
    decreases |ops|
  {
    ops == [] || (!QueriesALockedDocument(st, ops[0]) && NoQueryOnALock(Step(st, ops[0]).0, ops[1..]))
  }

  /** So every run that raises none keeps its locked documents verified, approved or archived. */
  lemma {:induction false} RunsKeepLocksSettled(st: State, ops: seq<Op>)
    requires LocksAreSettled(st) && NoQueryOnALock(st, ops)
    ensures LocksAreSettled(Run(st, ops))
    decreases |ops|
  {
    if ops != [] {
      LocksStaySettledUnlessQueried(st, ops[0]);
      RunsKeepLocksSettled(Step(st, ops[0]).0, ops[1..]);
    }
  }

  /** The shortest run that breaks it: upload, verify with a lock, raise a query. */
  lemma AQueryUnsettlesALock()
    ensures var ops := [Op.Upload(true), Op.Decide(0, Approve, true, true), Op.RaiseQuery(0)];
      !LocksAreSettled(Run(State(map[], [], 0), ops))
  {
    var a, b, c := Op.Upload(true), Op.Decide(0, Approve, true, true), Op.RaiseQuery(0);
    var ops := [a, b, c];
    assert ops[1..] == [b, c] && [b, c][1..] == [c] && [c][1..] == [];
    var s0 := State(map[], [], 0);
    var s1 := Step(s0, a).0;
    var s2 := Step(s1, b).0;
    var s3 := Step(s2, c).0;
    assert Run(s3, []) == s3;
    assert Run(s2, [c]) == Run(s3, [c][1..]);
    assert Run(s1, [b, c]) == Run(s2, [b, c][1..]);
    assert Run(s0, ops) == Run(s1, ops[1..]);
    assert s1.docs[0].status == Submitted && !s1.docs[0].locked;
    assert s2.docs[0].status == Verified && s2.docs[0].locked;
    assert s3.docs[0].status == QueryRaised && s3.docs[0].locked;
  }

  // ---- What each step does to a document ---------------------------------------------------

  /** A document that can be worked on: there, not deleted, seen by whoever asks, and not locked. */
  predicate CanChange(st: State, doc: nat, visible: bool) {
    doc in st.docs && !st.docs[doc].deleted && visible && !st.docs[doc].locked
  }

  /** No other document, and no version, is touched. */
  predicate OnlyDocument(before: State, after: State, doc: nat, d: Document) {
    after.docs == before.docs[doc := d] && after.versions == before.versions && after.next == before.next
  }

  /**
   A replaced file is never still settled: verified and approved documents go back under review, those
   sent back are submitted again, and the rest stay where they are. Nothing else of the document changes
   but its current version and their number.
   */
  lemma ReplacedExactlyWhen(st: State, doc: nat, visible: bool, accepted: bool)
    ensures var (after, r) := Step(st, Op.Replace(doc, visible, accepted));
      if CanChange(st, doc, visible) && accepted then
        && r == Done && doc in after.docs && after.docs.Keys == st.docs.Keys
        && var d, e := st.docs[doc], after.docs[doc];
        && e == Document(st.next, d.versionCount + 1, e.status, false, false)
        && e.status in {Draft, Submitted, UnderReview, Archived}
        && (e.status == UnderReview <==> d.status in {UnderReview, Verified, Approved})
        && (e.status == Submitted <==> d.status in {Submitted, QueryRaised, AwaitingClient, Rejected})
        && (e.status == Draft <==> d.status == Draft)
        && (forall other :: other in st.docs && other != doc ==> after.docs[other] == st.docs[other])
      else
        after == st && r == if doc !in st.docs || st.docs[doc].deleted || !visible then NotFound
                            else if st.docs[doc].locked then Forbidden
                            else BadRequest
  {
  }

  /**
   A deletion hides the document and changes nothing else of it: a locked one is not deleted, a settled
   one not without the right to archive, and by a client only one that has not been looked at.
   */
  lemma DeletedExactlyWhen(st: State, doc: nat, visible: bool, mayArchive: bool, isClient: bool)
    ensures var (after, r) := Step(st, Op.Delete(doc, visible, mayArchive, isClient));
      if CanChange(st, doc, visible) && (mayArchive || st.docs[doc].status !in {Verified, Approved, Archived})
         && (!isClient || st.docs[doc].status in {Draft, Submitted}) then
        var d := st.docs[doc];
        r == Done && OnlyDocument(st, after, doc, Document(d.current, d.versionCount, d.status, false, true))
      else after == st && r == if doc !in st.docs || st.docs[doc].deleted || !visible then NotFound else Forbidden
  {
  }

  lemma {:induction false} RunKeepsDeleted(st: State, ops: seq<Op>, doc: nat)
    requires Good(st) && doc in st.docs && st.docs[doc].deleted
    ensures doc in Run(st, ops).docs && Run(st, ops).docs[doc].deleted
    decreases |ops|
  {
    if ops != [] {
      assert DocumentIsGood(st, doc);
      StepKeeps(st, ops[0]);
      RunKeepsDeleted(Step(st, ops[0]).0, ops[1..], doc);
    }
  }

  /** A deleted document is never found again, whatever happens. */
  lemma DeletedForGood(st: State, ops: seq<Op>, doc: nat, visible: bool, accepted: bool, mayArchive: bool, isClient: bool)
    requires Good(st) && doc in st.docs && st.docs[doc].deleted
    ensures Step(Run(st, ops), Op.Replace(doc, visible, accepted)).1 == NotFound
    ensures Step(Run(st, ops), Op.Delete(doc, visible, mayArchive, isClient)).1 == NotFound
  {
    RunKeepsDeleted(st, ops, doc);
  }

  /** Which documents a decision can be made about, and where it takes them. */
  lemma DecidedExactlyWhen(st: State, doc: nat, decision: Decision, complete: bool, lockOnApprove: bool)
    ensures var (after, r) := Step(st, Op.Decide(doc, decision, complete, lockOnApprove));
      if doc in st.docs && !st.docs[doc].locked && complete
         && match decision
            case Approve => st.docs[doc].status in {Submitted, UnderReview, QueryRaised, Verified}
            case Reject => st.docs[doc].status in {Submitted, UnderReview, QueryRaised, AwaitingClient, Rejected}
            case RequestChanges => st.docs[doc].status in {QueryRaised, AwaitingClient}
            case RaiseAQuery => st.docs[doc].status in {Submitted, UnderReview, AwaitingClient, QueryRaised} then
        var d := st.docs[doc];
        var status := match decision
          case Approve => Verified case Reject => Rejected case RequestChanges => AwaitingClient case RaiseAQuery => QueryRaised;
        r == Done && OnlyDocument(st, after, doc,
                                  Document(d.current, d.versionCount, status, decision == Approve && lockOnApprove, d.deleted))
      else after == st && r == if doc !in st.docs then NotFound else if st.docs[doc].locked then Forbidden else BadRequest
  {
  }

  /** A lock is put only on what is verified or approved, and taken off anything; archiving locks, and nothing leaves the archive by it. */
  lemma LockedExactlyWhen(st: State, doc: nat, locked: bool)
    ensures var (after, r) := Step(st, Op.Lock(doc, locked));
      if doc in st.docs && (locked ==> st.docs[doc].status in {Verified, Approved}) then
        var d := st.docs[doc];
        r == Done && OnlyDocument(st, after, doc, Document(d.current, d.versionCount, d.status, locked, d.deleted))
      else after == st && r == if doc !in st.docs then NotFound else BadRequest
    ensures var (after, r) := Step(st, Op.Archive(doc));
      if doc in st.docs && st.docs[doc].status in {Draft, Submitted, Verified, Approved, Rejected, Archived} then
        var d := st.docs[doc];
        r == Done && OnlyDocument(st, after, doc, Document(d.current, d.versionCount, Archived, true, d.deleted))
      else after == st && r == if doc !in st.docs then NotFound else BadRequest
  {
  }

  /** An upload adds a submitted document with its first version under ids that were not in use, and nothing else. */
  lemma UploadedExactlyWhen(st: State, accepted: bool)
    ensures var (after, r) := Step(st, Op.Upload(accepted));
      if accepted then
        r == Done && after == State(st.docs[st.next := Document(st.next + 1, 1, Submitted, false, false)],
                                    st.versions + [Version(st.next + 1, st.next, 1, None, true)], st.next + 2)
      else after == st && r == BadRequest
  {
  }

  /** Opening, raising and answering queries move the status only, and archiving a package only what is in it. */
  lemma ReviewMovesStatus(st: State, doc: nat, package: set<nat>)
    requires doc in st.docs
    ensures var d, s := st.docs[doc], st.docs[doc].status;
      && OnlyDocument(st, Step(st, Op.Open(doc)).0, doc,
                      Document(d.current, d.versionCount, if s == Submitted then UnderReview else s, d.locked, d.deleted))
      && OnlyDocument(st, Step(st, Op.RaiseQuery(doc)).0, doc,
                      Document(d.current, d.versionCount, if s == AwaitingClient then s else QueryRaised, d.locked, d.deleted))
      && OnlyDocument(st, Step(st, Op.ResolveQuery(doc)).0, doc,
                      Document(d.current, d.versionCount, if s == QueryRaised || s == AwaitingClient then UnderReview else s, d.locked, d.deleted))
      && var after := Step(st, Op.ArchivePackage(package)).0;
         after.docs.Keys == st.docs.Keys && after.versions == st.versions
         && after.docs[doc] == if doc in package then Document(d.current, d.versionCount, Archived, true, d.deleted) else d
  {
    assert st.docs[doc := st.docs[doc]] == st.docs;
  }
}
