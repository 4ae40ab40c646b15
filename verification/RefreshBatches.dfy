// The refresh batches behind the default suggestions: the table and its four statements
// (crates/kenjaku-infra/src/postgres/refresh_batches.rs), the worker's cycle
// (crates/kenjaku-service/src/foundation/worker/suggestion.rs) and what readers see
// (crates/kenjaku-infra/src/postgres/default_suggestions.rs).

module RefreshBatches {

  datatype Status = Running | Active | Superseded | Failed

  datatype Counts = Counts(llmCalls: int, questionsKept: int, questionsRejected: int)

  datatype Batch = Batch(status: Status, fingerprint: string, startedAt: int, completedAt: int, counts: Counts)

  type Table = map<nat, Batch>

  const NO_COUNTS := Counts(0, 0, 0)

  const NOT_COMPLETED := -1

  // ---- The statements ----------------------------------------------------------------------

  function Started(t: Table, id: nat, fingerprint: string, now: int): Table {
    t[id := Batch(Running, fingerprint, now, NOT_COMPLETED, NO_COUNTS)]
  }

  function Demoted(t: Table, id: nat): Table {
    map k | k in t :: if t[k].status == Active && k != id then t[k].(status := Superseded) else t[k]
  }

  function Promoted(t: Table, id: nat, now: int, counts: Counts): Table {
    map k | k in t :: if k == id then t[k].(status := Active, completedAt := now, counts := counts) else t[k]
  }

  function Swapped(t: Table, id: nat, now: int, counts: Counts): Table {
    Promoted(Demoted(t, id), id, now, counts)
  }

  function MarkedFailed(t: Table, id: nat, now: int): Table {
    map k | k in t :: if k == id then t[k].(status := Failed, completedAt := now) else t[k]
  }

  // The order of retention: by start, the newest first; of batches that started together, the later id.
  predicate Newer(t: Table, a: nat, b: nat)
    requires a in t && b in t
  {
    t[a].startedAt > t[b].startedAt || (t[a].startedAt == t[b].startedAt && a > b)
  }

  function Finished(t: Table): set<nat> {
    set k | k in t && t[k].status != Running
  }

  function NewerIn(t: Table, s: set<nat>, b: nat): set<nat>
    requires b in t
  {
    set a | a in s && a in t && Newer(t, a, b)
  }

  // The batches that retention keeps of `s`: those with fewer than n newer ones.
  function Latest(t: Table, s: set<nat>, n: nat): set<nat> {
    set k | k in s && k in t && |NewerIn(t, s, k)| < n
  }

  function Retained(t: Table, n: nat): Table {
    map k | k in t && (t[k].status == Running || k in Latest(t, Finished(t), n)) :: t[k]
  }

  class Repository {
    var rows: Table
    var nextId: nat

    predicate Valid()
      reads this
    {
      forall k :: k in rows ==> k < nextId
    }

    constructor ()
      ensures Valid() && rows == map[]
    {
      rows, nextId := map[], 0;
    }

    method StartBatch(fingerprint: string, now: int) returns (id: nat)
      requires Valid()
      modifies this
      ensures Valid() && id == old(nextId) && id !in old(rows) && nextId == id + 1
      ensures rows == Started(old(rows), id, fingerprint, now)
    {
      id, nextId := nextId, nextId + 1;
      rows := rows[id := Batch(Running, fingerprint, now, NOT_COMPLETED, NO_COUNTS)];
    }

    method SwapActiveAtomic(id: nat, now: int, counts: Counts)
      requires Valid()
      modifies this
      ensures Valid() && nextId == old(nextId)
      ensures rows == Swapped(old(rows), id, now, counts)
    {
      rows := map k | k in rows ::
        if rows[k].status == Active && k != id then rows[k].(status := Superseded) else rows[k];
      if id in rows {
        rows := rows[id := rows[id].(status := Active, completedAt := now, counts := counts)];
      }
    }

    method MarkFailed(id: nat, now: int)
      requires Valid()
      modifies this
      ensures Valid() && nextId == old(nextId)
      ensures rows == MarkedFailed(old(rows), id, now)
    {
      if id in rows {
        rows := rows[id := rows[id].(status := Failed, completedAt := now)];
      }
    }

    // Returns the number of batches deleted.
    method RetainLastN(n: nat) returns (affected: nat)
      requires Valid()
      modifies this
      ensures Valid() && nextId == old(nextId)
      ensures rows == Retained(old(rows), n)
      ensures affected == if |Finished(old(rows))| <= n then 0 else |Finished(old(rows))| - n
    {
      var finished := set k | k in rows && rows[k].status != Running;
      var kept := Latest(rows, finished, n);
      LatestSize(rows, finished, n);
      affected := |finished| - |kept|;
      rows := map k | k in rows && (rows[k].status == Running || k in kept) :: rows[k];
    }
  }

  // ---- What the statements leave in the rows -----------------------------------------------

  // A new batch runs and has no counts yet; the other rows stay.
  lemma {:induction false} StartedRows(t: Table, id: nat, fingerprint: string, now: int, k: nat)
    ensures Started(t, id, fingerprint, now).Keys == t.Keys + {id}
    ensures var b := Started(t, id, fingerprint, now)[id];
            && b.status.Running? && b.fingerprint == fingerprint && b.startedAt == now
            && b.counts.llmCalls == b.counts.questionsKept == b.counts.questionsRejected == 0
    ensures k in t && k != id ==> Started(t, id, fingerprint, now)[k] == t[k]
  {
  }

  // A swap gives its batch the time and the counts, and supersedes every other active batch; nothing else
  // in any row changes.
  lemma {:induction false} SwappedRows(t: Table, id: nat, now: int, counts: Counts, k: nat)
    requires k in t
    ensures Swapped(t, id, now, counts).Keys == t.Keys
    ensures var b := Swapped(t, id, now, counts)[k];
            && b.fingerprint == t[k].fingerprint && b.startedAt == t[k].startedAt
            && (k == id ==> b.status.Active? && b.completedAt == now && b.counts == counts)
            && (k != id ==> b.completedAt == t[k].completedAt && b.counts == t[k].counts)
            && (k != id && t[k].status.Active? ==> b.status.Superseded?)
            && (k != id && !t[k].status.Active? ==> b.status == t[k].status)
  {
  }

  // A failure marks its batch and stamps the time.
  lemma {:induction false} FailedRows(t: Table, id: nat, now: int, k: nat)
    requires k in t
    ensures MarkedFailed(t, id, now).Keys == t.Keys
    ensures var b := MarkedFailed(t, id, now)[k];
            if k == id
            then b == Batch(Failed, t[k].fingerprint, t[k].startedAt, now, t[k].counts)
            else b == t[k]
  {
  }

  // Retention deletes only finished batches, changes none, and keeps n of the finished.
  lemma {:induction false} RetainedRows(t: Table, n: nat, k: nat)
    requires k in t
    ensures t[k].status.Running? ==> k in Retained(t, n)
    ensures k in Retained(t, n) ==> Retained(t, n)[k] == t[k]
    ensures |Finished(Retained(t, n))| == if |Finished(t)| <= n then |Finished(t)| else n
  {
    LatestSize(t, Finished(t), n);
    assert Finished(Retained(t, n)) == Latest(t, Finished(t), n);
  }

  // ---- Retention keeps the n newest --------------------------------------------------------

  lemma {:induction false} Newest(t: Table, s: set<nat>) returns (x: nat)
    requires s != {} && s <= t.Keys
    ensures x in s && forall k: nat :: k in s && k != x ==> Newer(t, x, k)
  {
    var z :| z in s;
    x := z;
    if s != {z} {
      var y := Newest(t, s - {z});
      x := if Newer(t, y, z) then y else z;
      forall k: nat | k in s && k != x ensures Newer(t, x, k) {
        assert k == z || k == y || (k in s - {z} && Newer(t, y, k));
      }
    }
  }

  lemma {:induction false} NewerInRest(t: Table, s: set<nat>, x: nat, k: nat)
    requires s <= t.Keys && x in s && k in s && k != x && Newer(t, x, k)
    ensures |NewerIn(t, s, k)| == |NewerIn(t, s - {x}, k)| + 1
  {
    assert NewerIn(t, s, k) == NewerIn(t, s - {x}, k) + {x};
  }

  lemma {:induction false} LatestWithNewest(t: Table, s: set<nat>, x: nat, n: nat)
    requires s <= t.Keys && x in s && n > 0 && forall k: nat :: k in s && k != x ==> Newer(t, x, k)
    ensures Latest(t, s, n) == Latest(t, s - {x}, n - 1) + {x}
    ensures x !in Latest(t, s - {x}, n - 1)
  {
    assert NewerIn(t, s, x) == {};
    forall k: nat | k in s && k != x ensures k in Latest(t, s, n) <==> k in Latest(t, s - {x}, n - 1) {
      NewerInRest(t, s, x, k);
    }
  }

  lemma {:induction false} AddOne(a: set<nat>, b: set<nat>, x: nat)
    requires x !in a && b == a + {x}
    ensures |b| == |a| + 1
  {
  }

  lemma {:induction false} LatestOfNone(t: Table, s: set<nat>, n: nat)
    requires n == 0 || s == {}
    ensures Latest(t, s, n) == {}
  {
  }

  // Exactly min(n, |s|) batches are kept.
  lemma {:induction false} LatestSize(t: Table, s: set<nat>, n: nat)
    requires s <= t.Keys
    ensures Latest(t, s, n) <= s && |Latest(t, s, n)| == if |s| <= n then |s| else n
    decreases |s|
  {
    if n == 0 || s == {} {
      LatestOfNone(t, s, n);
    } else {
      var x := Newest(t, s);
      var rest, m := s - {x}, n - 1;
      AddOne(rest, s, x);
      LatestSize(t, rest, m);
      LatestWithNewest(t, s, x, n);
      AddOne(Latest(t, rest, m), Latest(t, s, n), x);
    }
  }

  // Whatever finished batch is kept was started no earlier than whatever is deleted.
  lemma {:induction false} LatestAreNewest(t: Table, n: nat, kept: nat, deleted: nat)
    requires kept in Retained(t, n) && t[kept].status != Running
    requires deleted in t && deleted !in Retained(t, n)
    ensures Newer(t, kept, deleted) && t[kept].startedAt >= t[deleted].startedAt
  {
    if !Newer(t, kept, deleted) {
      var s := Finished(t);
      assert kept != deleted && Newer(t, deleted, kept);
      var a, b := NewerIn(t, s, deleted), NewerIn(t, s, kept);
      assert a <= b && deleted in b && deleted !in a;
      assert a <= b - {deleted};
      SubsetSize(a, b - {deleted});
    }
  }

  lemma {:induction false} SubsetSize(a: set<nat>, b: set<nat>)
    requires a <= b
    ensures |a| <= |b|
  {
    if a != {} {
      var x :| x in a;
      SubsetSize(a - {x}, b - {x});
    }
  }

  // ---- At most one batch is active ---------------------------------------------------------

  function ActiveIds(t: Table): set<nat> {
    set k | k in t && t[k].status == Active
  }

  predicate IsActive(t: Table, id: nat) {
    id in t && t[id].status == Active
  }

  ghost predicate AtMostOneActive(t: Table) {
    forall a, b :: IsActive(t, a) && IsActive(t, b) ==> a == b
  }

  // Every statement keeps the table to at most one active batch, whatever id it is given; the swap even
  // restores that.
  lemma {:induction false} StatementsKeepOneActive(
    t: Table, id: nat, fingerprint: string, now: int, counts: Counts, n: nat)
    ensures AtMostOneActive(Swapped(t, id, now, counts))
    ensures AtMostOneActive(t) ==>
              && AtMostOneActive(Started(t, id, fingerprint, now))
              && AtMostOneActive(MarkedFailed(t, id, now))
              && AtMostOneActive(Retained(t, n))
  {
    var s, f, r := Started(t, id, fingerprint, now), MarkedFailed(t, id, now), Retained(t, n);
    assert forall k :: IsActive(Swapped(t, id, now, counts), k) ==> k == id;
    assert forall k :: IsActive(s, k) ==> IsActive(t, k);
    assert forall k :: IsActive(f, k) ==> IsActive(t, k);
    assert forall k :: IsActive(r, k) ==> IsActive(t, k);
  }

  // When a statement leaves a batch active: the swap when its id exists; a failure when another batch is
  // meant; retention when fewer than n finished batches are newer.
  lemma {:induction false} WhenActiveRemains(t: Table, active: nat, id: nat, now: int, counts: Counts, n: nat)
    requires IsActive(t, active) && AtMostOneActive(t)
    ensures ActiveIds(Swapped(t, id, now, counts)) == if id in t then {id} else {}
    ensures ActiveIds(MarkedFailed(t, id, now)) == if id == active then {} else {active}
    ensures ActiveIds(Retained(t, n)) == if |NewerIn(t, Finished(t), active)| < n then {active} else {}
  {
    assert forall k :: IsActive(t, k) <==> k == active;
    assert forall k :: k in ActiveIds(MarkedFailed(t, id, now)) <==> k != id && IsActive(t, k);
    assert forall k :: k in ActiveIds(Retained(t, n)) <==> IsActive(t, k) && k in Latest(t, Finished(t), n);
  }

  // ---- Runs of statements ------------------------------------------------------------------

  datatype Statement =
    | Start(fingerprint: string, now: int)
    | Swap(id: nat, now: int, counts: Counts)
    | Fail(id: nat, now: int)
    | Retain(n: nat)

  datatype World = World(table: Table, nextId: nat)

  const EMPTY_WORLD := World(map[], 0)

  function Exec(w: World, s: Statement): World {
    match s
    case Start(fingerprint, now) => World(Started(w.table, w.nextId, fingerprint, now), w.nextId + 1)
    case Swap(id, now, counts) => w.(table := Swapped(w.table, id, now, counts))
    case Fail(id, now) => w.(table := MarkedFailed(w.table, id, now))
    case Retain(n) => w.(table := Retained(w.table, n))
  }

  function ExecAll(w: World, ss: seq<Statement>): World {
    if ss == [] then w else Exec(ExecAll(w, ss[..|ss| - 1]), ss[|ss| - 1])
  }

  ghost predicate Ordered(w: World) {
    AtMostOneActive(w.table) && forall k :: k in w.table ==> k < w.nextId
  }

  // Whether the active batch, if there is one, or another one is active after the statement.
  ghost predicate KeepsServing(t: Table, s: Statement) {
    match s
    case Start(_, _) => true
    case Swap(id, _, _) => id in t
    case Fail(id, _) => !IsActive(t, id)
    case Retain(n) => forall a: nat :: IsActive(t, a) ==> |NewerIn(t, Finished(t), a)| < n
  }

  predicate Activates(t: Table, s: Statement) {
    s.Swap? && s.id in t
  }

  lemma {:induction false} StartKeepsActive(w: World, fingerprint: string, now: int)
    requires Ordered(w)
    ensures ActiveIds(Started(w.table, w.nextId, fingerprint, now)) == ActiveIds(w.table)
  {
    assert forall k: nat :: IsActive(Started(w.table, w.nextId, fingerprint, now), k) <==> IsActive(w.table, k);
  }

  lemma {:induction false} ExecKeepsOrder(w: World, s: Statement)
    requires Ordered(w)
    ensures Ordered(Exec(w, s))
  {
    match s
    case Start(fingerprint, now) => StatementsKeepOneActive(w.table, w.nextId, fingerprint, now, NO_COUNTS, 0);
    case Swap(id, now, counts) => StatementsKeepOneActive(w.table, id, "", now, counts, 0);
    case Fail(id, now) => StatementsKeepOneActive(w.table, id, "", now, NO_COUNTS, 0);
    case Retain(n) => StatementsKeepOneActive(w.table, 0, "", 0, NO_COUNTS, n);
  }

  lemma {:induction false} WhenIdleRemains(t: Table, id: nat, now: int, counts: Counts, n: nat)
    requires ActiveIds(t) == {}
    ensures ActiveIds(Swapped(t, id, now, counts)) == if id in t then {id} else {}
    ensures ActiveIds(MarkedFailed(t, id, now)) == {} && ActiveIds(Retained(t, n)) == {}
  {
    assert forall k: nat :: IsActive(t, k) ==> k in ActiveIds(t);
    assert forall k: nat :: IsActive(Swapped(t, id, now, counts), k) <==> k == id && id in t;
    assert forall k: nat :: IsActive(MarkedFailed(t, id, now), k) ==> IsActive(t, k);
    assert forall k: nat :: IsActive(Retained(t, n), k) ==> IsActive(t, k);
  }

  lemma {:induction false} ActiveIdsOfOne(t: Table, active: nat)
    requires AtMostOneActive(t) && IsActive(t, active)
    ensures ActiveIds(t) == {active} && forall k: nat :: IsActive(t, k) <==> k == active
  {
    assert forall k: nat :: k in ActiveIds(t) <==> IsActive(t, k);
  }

  // After every statement one batch is active exactly if one was and the statement keeps it so, or if the
  // statement is a swap that finds its batch; otherwise none is.
  lemma {:induction false} ExecServes(w: World, s: Statement)
    requires Ordered(w)
    ensures var served := ActiveIds(w.table) != {} && KeepsServing(w.table, s);
            |ActiveIds(Exec(w, s).table)| == if served || Activates(w.table, s) then 1 else 0
  {
    var t := w.table;
    if ActiveIds(t) == {} {
      match s
      case Start(fingerprint, now) => StartKeepsActive(w, fingerprint, now);
      case Swap(id, now, counts) => WhenIdleRemains(t, id, now, counts, 0);
      case Fail(id, now) => WhenIdleRemains(t, id, now, NO_COUNTS, 0);
      case Retain(n) => WhenIdleRemains(t, 0, 0, NO_COUNTS, n);
    } else {
      var a :| a in ActiveIds(t);
      ActiveIdsOfOne(t, a);
      match s
      case Start(fingerprint, now) => StartKeepsActive(w, fingerprint, now);
      case Swap(id, now, counts) => WhenActiveRemains(t, a, id, now, counts, 0);
      case Fail(id, now) => WhenActiveRemains(t, a, id, now, NO_COUNTS, 0);
      case Retain(n) => WhenActiveRemains(t, a, 0, 0, NO_COUNTS, n);
    }
  }

  lemma {:induction false} RunKeepsOrder(w: World, ss: seq<Statement>)
    requires Ordered(w)
    ensures Ordered(ExecAll(w, ss))
  {
    if ss != [] {
      RunKeepsOrder(w, ss[..|ss| - 1]);
      ExecKeepsOrder(ExecAll(w, ss[..|ss| - 1]), ss[|ss| - 1]);
    }
  }

  // The number of active batches after the first k statements.
  function ActiveAfter(w: World, ss: seq<Statement>, k: nat): nat
    requires k <= |ss|
  {
    |ActiveIds(ExecAll(w, ss[..k]).table)|
  }

  // Once a batch is active: in every state of a run exactly one is, if and only if every statement of the
  // run keeps it so.
  lemma {:induction false} RunServesThroughout(w: World, ss: seq<Statement>)
    requires Ordered(w) && |ActiveIds(w.table)| == 1
    ensures (forall k :: 0 <= k <= |ss| ==> ActiveAfter(w, ss, k) == 1) <==>
            (forall k :: 0 <= k < |ss| ==> KeepsServing(ExecAll(w, ss[..k]).table, ss[k]))
  {
    if forall k :: 0 <= k <= |ss| ==> ActiveAfter(w, ss, k) == 1 {
      forall k | 0 <= k < |ss| ensures KeepsServing(ExecAll(w, ss[..k]).table, ss[k]) {
        assert ActiveAfter(w, ss, k) == 1 && ActiveAfter(w, ss, k + 1) == 1;
        NextState(w, ss, k);
      }
    }
    if forall k :: 0 <= k < |ss| ==> KeepsServing(ExecAll(w, ss[..k]).table, ss[k]) {
      forall k | 0 <= k <= |ss| ensures ActiveAfter(w, ss, k) == 1 {
        ServedUpTo(w, ss, k);
      }
    }
  }

  lemma {:induction false} NextState(w: World, ss: seq<Statement>, k: nat)
    requires Ordered(w) && k < |ss|
    ensures var t := ExecAll(w, ss[..k]).table;
            ActiveAfter(w, ss, k + 1) ==
              if (ActiveIds(t) != {} && KeepsServing(t, ss[k])) || Activates(t, ss[k]) then 1 else 0
    ensures Activates(ExecAll(w, ss[..k]).table, ss[k]) ==> KeepsServing(ExecAll(w, ss[..k]).table, ss[k])
  {
    RunKeepsOrder(w, ss[..k]);
    assert ss[..k + 1][..k] == ss[..k];
    ExecServes(ExecAll(w, ss[..k]), ss[k]);
  }

  lemma {:induction false} ServedUpTo(w: World, ss: seq<Statement>, k: nat)
    requires Ordered(w) && |ActiveIds(w.table)| == 1 && k <= |ss|
    requires forall i :: 0 <= i < k ==> KeepsServing(ExecAll(w, ss[..i]).table, ss[i])
    ensures ActiveAfter(w, ss, k) == 1
  {
    if k > 0 {
      ServedUpTo(w, ss, k - 1);
      NextState(w, ss, k - 1);
    }
  }

  // ---- Disciplined runs --------------------------------------------------------------------

  predicate IsRunning(t: Table, id: nat) {
    id in t && t[id].status == Running
  }

  // Swaps and failures meet running batches; retention keeps at least one, and the active batch is the
  // newest that is finished.
  ghost predicate Disciplined(t: Table, s: Statement) {
    match s
    case Start(_, _) => true
    case Swap(id, _, _) => IsRunning(t, id)
    case Fail(id, _) => IsRunning(t, id)
    case Retain(n) => n >= 1 && forall a: nat :: IsActive(t, a) ==> NewerIn(t, Finished(t), a) == {}
  }

  ghost predicate AllDisciplined(w: World, ss: seq<Statement>) {
    forall k :: 0 <= k < |ss| ==> Disciplined(ExecAll(w, ss[..k]).table, ss[k])
  }

  predicate HasSwap(ss: seq<Statement>) {
    exists k :: 0 <= k < |ss| && ss[k].Swap?
  }

  // In every state of a disciplined run, however cycles interleave, at most one batch is active; one is
  // from the first swap on.
  lemma {:induction false} DisciplinedRunServes(w: World, ss: seq<Statement>, k: nat)
    requires Ordered(w) && AllDisciplined(w, ss) && k <= |ss|
    ensures AtMostOneActive(ExecAll(w, ss[..k]).table)
    ensures ActiveAfter(w, ss, k) == if ActiveIds(w.table) != {} || HasSwap(ss[..k]) then 1 else 0
  {
    RunKeepsOrder(w, ss[..k]);
    if k == 0 {
      if a :| a in ActiveIds(w.table) {
        ActiveIdsOfOne(w.table, a);
      }
    } else {
      DisciplinedRunServes(w, ss, k - 1);
      NextState(w, ss, k - 1);
      var t := ExecAll(w, ss[..k - 1]).table;
      assert Disciplined(t, ss[k - 1]);
      HasSwapAtLast(ss, k);
    }
  }

  lemma {:induction false} HasSwapAtLast(ss: seq<Statement>, k: nat)
    requires 0 < k <= |ss|
    ensures HasSwap(ss[..k]) <==> HasSwap(ss[..k - 1]) || ss[k - 1].Swap?
  {
    if HasSwap(ss[..k - 1]) {
      var i :| 0 <= i < k - 1 && ss[..k - 1][i].Swap?;
      assert ss[..k][i].Swap?;
    }
    if HasSwap(ss[..k]) {
      var i :| 0 <= i < k && ss[..k][i].Swap?;
      assert i < k - 1 ==> ss[..k - 1][i].Swap?;
    }
    assert ss[..k][k - 1] == ss[k - 1];
  }

  // Retention right after the swap of the batch that was started last is disciplined.
  lemma {:induction false} RetainAfterSwap(t: Table, id: nat, now: int, counts: Counts, n: nat)
    requires id in t && n >= 1 && forall k: nat :: k in t && k != id ==> Newer(t, id, k)
    ensures Disciplined(Swapped(t, id, now, counts), Retain(n))
  {
    var swapped := Swapped(t, id, now, counts);
    assert forall a: nat :: IsActive(swapped, a) <==> a == id;
    assert forall k: nat :: k in t ==> swapped[k].startedAt == t[k].startedAt;
    assert NewerIn(swapped, Finished(swapped), id) == {};
  }

  // ---- The worker --------------------------------------------------------------------------

  // How a cycle of the worker ends. The advisory lock lets one cycle run at a time.
  datatype Outcome =
    | Skipped         // lock held, empty corpus or unchanged fingerprint: no batch
    | Abandoned       // the batch was started and never finished
    | BuildFailed     // an error before the swap: the batch is marked failed
    | Completed       // swap and retention
    | SwapOnly        // the swap, and nothing after it
    | RetentionFailed // the swap, an error in retention, and the batch is marked failed

  datatype Turn = Turn(outcome: Outcome, fingerprint: string, start: int, end: int, counts: Counts, retention: nat)

  predicate Swaps(o: Outcome) {
    o == Completed || o == SwapOnly || o == RetentionFailed
  }

  // The statements of a cycle whose batch gets the given id.
  function Statements(turn: Turn, id: nat): seq<Statement> {
    var start, swap := Start(turn.fingerprint, turn.start), Swap(id, turn.end, turn.counts);
    match turn.outcome
    case Skipped => []
    case Abandoned => [start]
    case BuildFailed => [start, Fail(id, turn.end)]
    case Completed => [start, swap, Retain(turn.retention)]
    case SwapOnly => [start, swap]
    case RetentionFailed => [start, swap, Fail(id, turn.end)]
  }

  lemma {:induction false} ExecThree(w: World, a: Statement, b: Statement, c: Statement)
    ensures ExecAll(w, []) == w && ExecAll(w, [a]) == Exec(w, a)
    ensures ExecAll(w, [a, b]) == Exec(Exec(w, a), b)
    ensures ExecAll(w, [a, b, c]) == Exec(Exec(Exec(w, a), b), c)
  {
    assert [a][..0] == [] && [a, b][..1] == [a] && [a, b, c][..2] == [a, b];
  }

  // What the worker does with the table.
  method RunCycle(repo: Repository, turn: Turn)
    requires repo.Valid()
    modifies repo
    ensures repo.Valid()
    ensures World(repo.rows, repo.nextId) ==
            ExecAll(World(old(repo.rows), old(repo.nextId)), Statements(turn, old(repo.nextId)))
  {
    ghost var w := World(repo.rows, repo.nextId);
    ghost var ss := Statements(turn, w.nextId);
    if turn.outcome == Skipped {
      return;
    }
    ExecThree(w, ss[0], if |ss| > 1 then ss[1] else ss[0], if |ss| > 2 then ss[2] else ss[0]);
    var id := repo.StartBatch(turn.fingerprint, turn.start);
    ghost var w1 := World(repo.rows, repo.nextId);
    assert w1 == Exec(w, ss[0]);
    if Swaps(turn.outcome) {
      repo.SwapActiveAtomic(id, turn.end, turn.counts);
      assert World(repo.rows, repo.nextId) == Exec(w1, ss[1]);
      if turn.outcome == Completed {
        var _ := repo.RetainLastN(turn.retention);
      }
    }
    if turn.outcome == BuildFailed || turn.outcome == RetentionFailed {
      repo.MarkFailed(id, turn.end);
    }
  }

  function RunTurns(ts: seq<Turn>): World {
    if ts == [] then EMPTY_WORLD else
      var w := RunTurns(ts[..|ts| - 1]);
      ExecAll(w, Statements(ts[|ts| - 1], w.nextId))
  }

  // The clock does not run backwards.
  predicate InTime(ts: seq<Turn>) {
    forall i, j :: 0 <= i < j < |ts| ==> ts[i].start <= ts[j].start
  }

  ghost predicate StartedBy(w: World, now: int) {
    forall k :: k in w.table ==> w.table[k].startedAt <= now
  }

  // A cycle carries its swap through when retention neither fails nor keeps nothing.
  predicate CarriesThrough(turn: Turn) {
    turn.outcome != RetentionFailed && (turn.outcome == Completed ==> turn.retention >= 1)
  }

  lemma {:induction false} SwapInCycle(w: World, turn: Turn)
    requires Ordered(w) && StartedBy(w, turn.start)
    ensures var started := Exec(w, Start(turn.fingerprint, turn.start));
            && Ordered(started) && IsRunning(started.table, w.nextId)
            && forall k: nat :: k in started.table && k != w.nextId ==> Newer(started.table, w.nextId, k)
  {
    ExecKeepsOrder(w, Start(turn.fingerprint, turn.start));
  }

  // The states of a cycle are those of a disciplined run, if it carries its swap through.
  lemma {:induction false} CycleIsDisciplined(w: World, turn: Turn)
    requires Ordered(w) && StartedBy(w, turn.start) && CarriesThrough(turn)
    ensures AllDisciplined(w, Statements(turn, w.nextId))
  {
    var ss, id := Statements(turn, w.nextId), w.nextId;
    SwapInCycle(w, turn);
    if ss != [] {
      var started := Exec(w, ss[0]).table;
      assert ss[..0] == [] && ss[..1] == [ss[0]];
      ExecThree(w, ss[0], ss[0], ss[0]);
      if turn.outcome == Completed {
        assert ss[..2] == [ss[0], ss[1]];
        ExecThree(w, ss[0], ss[1], ss[1]);
        RetainAfterSwap(started, id, turn.end, turn.counts, turn.retention);
      }
    }
  }

  // Readers are served in every state of a cycle that carries its swap through, once they were.
  lemma {:induction false} CycleServesThroughout(w: World, turn: Turn, k: nat)
    requires Ordered(w) && StartedBy(w, turn.start) && CarriesThrough(turn) && |ActiveIds(w.table)| == 1
    requires k <= |Statements(turn, w.nextId)|
    ensures ActiveAfter(w, Statements(turn, w.nextId), k) == 1
  {
    CycleIsDisciplined(w, turn);
    DisciplinedRunServes(w, Statements(turn, w.nextId), k);
  }

  // Which batch is active after a cycle.
  lemma {:induction false} CycleChangesActive(w: World, turn: Turn)
    requires Ordered(w) && StartedBy(w, turn.start)
    ensures Ordered(ExecAll(w, Statements(turn, w.nextId)))
    ensures ActiveIds(ExecAll(w, Statements(turn, w.nextId)).table) ==
            if !Swaps(turn.outcome) then ActiveIds(w.table) else if CarriesThrough(turn) then {w.nextId} else {}
  {
    RunKeepsOrder(w, Statements(turn, w.nextId));
    if Swaps(turn.outcome) {
      SwappingCycle(w, turn);
    } else if turn.outcome != Skipped {
      OtherCycle(w, turn);
    }
  }

  // What a cycle leaves of its own batch; a completed one leaves no more finished batches than it retains.
  lemma {:induction false} CycleLeavesBatch(w: World, turn: Turn)
    requires Ordered(w) && StartedBy(w, turn.start)
    ensures var t, id := ExecAll(w, Statements(turn, w.nextId)).table, w.nextId;
            match turn.outcome
            case Skipped => t == w.table
            case Abandoned => IsRunning(t, id)
            case BuildFailed => id in t && t[id] == Batch(Failed, turn.fingerprint, turn.start, turn.end, NO_COUNTS)
            case Completed => |Finished(t)| <= turn.retention && (turn.retention > 0 ==> HoldsActive(t, id, turn))
            case SwapOnly => HoldsActive(t, id, turn)
            case RetentionFailed =>
              id in t && t[id] == Batch(Failed, turn.fingerprint, turn.start, turn.end, turn.counts)
  {
    var start, swap := Start(turn.fingerprint, turn.start), Swap(w.nextId, turn.end, turn.counts);
    var fail, retain := Fail(w.nextId, turn.end), Retain(turn.retention);
    if turn.outcome != Completed {
      RunningBatchEnds(Exec(w, start).table, w.nextId, turn);
    }
    match turn.outcome
    case Skipped =>
    case Abandoned => ExecThree(w, start, start, start);
    case BuildFailed => ExecThree(w, start, fail, fail);
    case SwapOnly => ExecThree(w, start, swap, swap);
    case RetentionFailed => ExecThree(w, start, swap, fail);
    case Completed => CompletedLeavesBatch(w, turn, start, swap, retain);
  }

  lemma {:induction false} CompletedLeavesBatch(
    w: World, turn: Turn, start: Statement, swap: Statement, retain: Statement)
    requires Ordered(w) && StartedBy(w, turn.start) && turn.outcome == Completed
    requires Statements(turn, w.nextId) == [start, swap, retain]
    ensures var t := ExecAll(w, [start, swap, retain]).table;
            |Finished(t)| <= turn.retention && (turn.retention > 0 ==> HoldsActive(t, w.nextId, turn))
  {
    assert start == [start, swap, retain][0] && swap == [start, swap, retain][1] && retain == [start, swap, retain][2];
    RunningBatchEnds(Exec(w, start).table, w.nextId, turn);
    ExecThree(w, start, swap, retain);
    CycleChangesActive(w, turn);
  }

  lemma {:induction false} RunningBatchEnds(t: Table, id: nat, turn: Turn)
    requires id in t && t[id] == Batch(Running, turn.fingerprint, turn.start, NOT_COMPLETED, NO_COUNTS)
    ensures MarkedFailed(t, id, turn.end)[id] == Batch(Failed, turn.fingerprint, turn.start, turn.end, NO_COUNTS)
    ensures var s := Swapped(t, id, turn.end, turn.counts);
            && HoldsActive(s, id, turn)
            && MarkedFailed(s, id, turn.end)[id] ==
               Batch(Failed, turn.fingerprint, turn.start, turn.end, turn.counts)
            && |Finished(Retained(s, turn.retention))| <= turn.retention
            && (ActiveIds(Retained(s, turn.retention)) == {id} ==> HoldsActive(Retained(s, turn.retention), id, turn))
  {
    var s := Swapped(t, id, turn.end, turn.counts);
    RetainedRows(s, turn.retention, id);
    assert id in {id} && (ActiveIds(Retained(s, turn.retention)) == {id} ==> id in Retained(s, turn.retention));
  }

  // The batch of a cycle is active and carries what the cycle wrote.
  predicate HoldsActive(t: Table, id: nat, turn: Turn) {
    id in t && t[id] == Batch(Active, turn.fingerprint, turn.start, turn.end, turn.counts)
  }

  lemma {:induction false} OtherCycle(w: World, turn: Turn)
    requires Ordered(w) && !Swaps(turn.outcome) && turn.outcome != Skipped
    ensures ActiveIds(ExecAll(w, Statements(turn, w.nextId)).table) == ActiveIds(w.table)
  {
    var start, fail := Start(turn.fingerprint, turn.start), Fail(w.nextId, turn.end);
    var started := Exec(w, start).table;
    ExecThree(w, start, fail, fail);
    StartKeepsActive(w, turn.fingerprint, turn.start);
    assert forall k: nat :: IsActive(MarkedFailed(started, w.nextId, turn.end), k) <==> IsActive(started, k);
  }

  lemma {:induction false} SwappingCycle(w: World, turn: Turn)
    requires Ordered(w) && StartedBy(w, turn.start) && Swaps(turn.outcome)
    ensures ActiveIds(ExecAll(w, Statements(turn, w.nextId)).table) == if CarriesThrough(turn) then {w.nextId} else {}
  {
    SwapThen(w, turn, if turn.outcome == RetentionFailed then Fail(w.nextId, turn.end) else Retain(turn.retention));
  }

  // A swap, and possibly the statement that follows it.
  lemma {:induction false} SwapThen(w: World, turn: Turn, last: Statement)
    requires Ordered(w) && StartedBy(w, turn.start)
    requires last == Retain(turn.retention) || last == Fail(w.nextId, turn.end)
    ensures var start, swap := Start(turn.fingerprint, turn.start), Swap(w.nextId, turn.end, turn.counts);
            && ActiveIds(ExecAll(w, [start, swap]).table) == {w.nextId}
            && ActiveIds(ExecAll(w, [start, swap, last]).table) ==
               if last.Retain? && last.n >= 1 then {w.nextId} else {}
  {
    var start, swap := Start(turn.fingerprint, turn.start), Swap(w.nextId, turn.end, turn.counts);
    SwapInCycle(w, turn);
    var started := Exec(w, start);
    SwapInStarted(started, swap, Retain(turn.retention), Fail(w.nextId, turn.end));
    ActiveAfterThree(w, start, started, swap, last);
  }

  lemma {:induction false} ActiveAfterThree(w: World, a: Statement, w': World, b: Statement, c: Statement)
    requires w' == Exec(w, a)
    ensures ActiveIds(ExecAll(w, [a, b]).table) == ActiveIds(Exec(w', b).table)
    ensures ActiveIds(ExecAll(w, [a, b, c]).table) == ActiveIds(Exec(Exec(w', b), c).table)
  {
    ExecThree(w, a, b, c);
  }

  lemma {:induction false} SwapInStarted(w: World, swap: Statement, retain: Statement, fail: Statement)
    requires swap.Swap? && retain.Retain? && fail.Fail? && fail.id == swap.id && IsRunning(w.table, swap.id)
    requires forall k: nat :: k in w.table && k != swap.id ==> Newer(w.table, swap.id, k)
    ensures ActiveIds(Exec(w, swap).table) == {swap.id} && ActiveIds(Exec(Exec(w, swap), fail).table) == {}
    ensures ActiveIds(Exec(Exec(w, swap), retain).table) == if retain.n >= 1 then {swap.id} else {}
  {
    var id, swapped := swap.id, Swapped(w.table, swap.id, swap.now, swap.counts);
    SwapActivates(w.table, id, swap.now, swap.counts);
    WhenActiveRemains(swapped, id, id, fail.now, swap.counts, retain.n);
    RetainAfterSwap(w.table, id, swap.now, swap.counts, 1);
  }

  lemma {:induction false} SwapActivates(t: Table, id: nat, now: int, counts: Counts)
    requires id in t
    ensures var swapped := Swapped(t, id, now, counts);
            IsActive(swapped, id) && AtMostOneActive(swapped) && ActiveIds(swapped) == {id}
  {
    StatementsKeepOneActive(t, id, "", now, counts, 0);
    assert IsActive(Swapped(t, id, now, counts), id);
    ActiveIdsOfOne(Swapped(t, id, now, counts), id);
  }

  lemma {:induction false} RunStartsBy(w: World, ss: seq<Statement>, now: int)
    requires StartedBy(w, now) && forall s :: s in ss && s.Start? ==> s.now <= now
    ensures StartedBy(ExecAll(w, ss), now)
  {
    if ss != [] {
      var last := ss[|ss| - 1];
      assert last in ss;
      RunStartsBy(w, ss[..|ss| - 1], now);
      ExecStartsBy(ExecAll(w, ss[..|ss| - 1]), last, now);
    }
  }

  lemma {:induction false} ExecStartsBy(w: World, s: Statement, now: int)
    requires StartedBy(w, now) && (s.Start? ==> s.now <= now)
    ensures StartedBy(Exec(w, s), now)
  {
  }

  // The number of the last cycle that swapped.
  function LastSwap(ts: seq<Turn>): (r: int)
    ensures -1 <= r < |ts| && (r >= 0 ==> Swaps(ts[r].outcome))
    ensures forall k :: r < k < |ts| ==> !Swaps(ts[k].outcome)
  {
    if ts == [] then -1
    else if Swaps(ts[|ts| - 1].outcome) then |ts| - 1
    else LastSwap(ts[..|ts| - 1])
  }

  // Whether readers are served: the last cycle that swapped carried it through.
  predicate Serves(ts: seq<Turn>) {
    LastSwap(ts) >= 0 && CarriesThrough(ts[LastSwap(ts)])
  }

  // Over every run of cycles, at most one batch is active; one is active exactly when the last cycle that
  // swapped carried it through.
  lemma {:induction false} RunServesReaders(ts: seq<Turn>)
    requires InTime(ts)
    ensures var w := RunTurns(ts);
            && Ordered(w) && |ActiveIds(w.table)| == (if Serves(ts) then 1 else 0)
            && (ts != [] ==> StartedBy(w, ts[|ts| - 1].start)) && (ts == [] ==> w == EMPTY_WORLD)
  {
    if ts != [] {
      var prefix, turn := ts[..|ts| - 1], ts[|ts| - 1];
      var w := RunTurns(prefix);
      RunServesReaders(prefix);
      assert StartedBy(w, turn.start);
      CycleChangesActive(w, turn);
      RunStartsBy(w, Statements(turn, w.nextId), turn.start);
    }
  }

  // ---- Readers -----------------------------------------------------------------------------

  datatype Suggestion = Suggestion(batchId: nat, locale: string, clusterId: int, question: string)

  function Visible(t: Table, suggestions: set<Suggestion>): set<Suggestion> {
    set s | s in suggestions && IsActive(t, s.batchId)
  }

  function OfBatch(suggestions: set<Suggestion>, id: nat): set<Suggestion> {
    set s | s in suggestions && s.batchId == id
  }

  // Readers never see a mixture of batches, and see a batch being built only from its swap on.
  lemma {:induction false} ReadersSwitchAtSwap(
    t: Table, suggestions: set<Suggestion>, added: set<Suggestion>, id: nat, active: nat, now: int,
    counts: Counts, n: nat)
    requires AtMostOneActive(t) && IsActive(t, active) && id in t && t[id].status == Running
    requires forall s :: s in added ==> s.batchId == id
    ensures Visible(t, suggestions) == OfBatch(suggestions, active)
    ensures Visible(t, suggestions + added) == Visible(t, suggestions)
    ensures Visible(MarkedFailed(t, id, now), suggestions + added) == Visible(t, suggestions)
    ensures Visible(Swapped(t, id, now, counts), suggestions + added) == OfBatch(suggestions + added, id)
  {
    assert forall k: nat :: IsActive(t, k) <==> k == active;
    assert forall k: nat :: IsActive(MarkedFailed(t, id, now), k) <==> IsActive(t, k);
    assert forall k: nat :: IsActive(Swapped(t, id, now, counts), k) <==> k == id;
  }
}
