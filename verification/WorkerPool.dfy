// Reading every object of a collection: a producer hands indices over an
// unbuffered channel to a fixed number of workers, which read one object each
// and write shared results under a lock. The pool is a state machine; a run is
// any sequence of enabled steps.
module WorkerPool {
  import opened Objects

  const WORKERS: nat := 8

  // What reading the stub at an index gives. Every index is read at most once,
  // so one answer per index covers every behaviour of the deployment.
  datatype Reading<T> = Got(obj: T) | Failed

  datatype Worker =
    | Waiting            // at the channel
    | Holding(i: nat)    // received an index, has not looked for an error yet
    | Fetching(i: nat)   // the request is out
    | Fetched(i: nat)    // it was answered, and is about to be recorded
    | Left               // the channel was closed

  // `finished` lists the indices that were dealt with, in that order; `late`
  // counts the requests answered after the first error was recorded.
  datatype Pool<T> = Pool(
    next: nat, closed: bool, workers: seq<Worker>,
    out: seq<Option<T>>, firstErr: Option<nat>,
    finished: seq<nat>, late: nat)

  datatype Action =
    | Hand(w: nat)     // the producer sends the next index to w
    | Close            // the producer closes the channel
    | Leave(w: nat)    // w finds the channel closed
    | Look(w: nat)     // w looks for a recorded error, and skips or requests
    | Answer(w: nat)   // w's request is answered
    | Record(w: nat)   // w writes what it got

  function Begin<T>(n: nat, workers: nat): Pool<T> {
    Pool(0, false, seq(workers, _ => Waiting), seq(n, _ => None), None, [], 0)
  }

  predicate Enabled<T>(p: Pool<T>, n: nat, a: Action) {
    match a
    case Hand(w) => w < |p.workers| && p.workers[w].Waiting? && !p.closed && p.next < n
    case Close => !p.closed && p.next == n
    case Leave(w) => w < |p.workers| && p.workers[w].Waiting? && p.closed
    case Look(w) => w < |p.workers| && p.workers[w].Holding?
    case Answer(w) => w < |p.workers| && p.workers[w].Fetching?
    case Record(w) => w < |p.workers| && p.workers[w].Fetched? && p.workers[w].i < |p.out|
  }

  function Next<T>(p: Pool<T>, n: nat, fetch: nat -> Reading<T>, a: Action): Pool<T>
    requires Enabled(p, n, a)
  {
    match a
    case Hand(w) => p.(workers := p.workers[w := Holding(p.next)], next := p.next + 1)
    case Close => p.(closed := true)
    case Leave(w) => p.(workers := p.workers[w := Left])
    case Look(w) =>
      var i := p.workers[w].i;
      if p.firstErr.Some? then p.(workers := p.workers[w := Waiting], finished := p.finished + [i])
      else p.(workers := p.workers[w := Fetching(i)])
    case Answer(w) =>
      p.(workers := p.workers[w := Fetched(p.workers[w].i)], late := p.late + if p.firstErr.Some? then 1 else 0)
    case Record(w) =>
      var i := p.workers[w].i;
      p.(workers := p.workers[w := Waiting], finished := p.finished + [i],
         firstErr := if fetch(i).Failed? && p.firstErr.None? then Some(i) else p.firstErr,
         out := p.out[i := match fetch(i) case Got(o) => Some(o) case Failed => None])
  }

  predicate Over<T>(p: Pool<T>) { forall w :: 0 <= w < |p.workers| ==> p.workers[w].Left? }

  // The run of a sequence of steps, if each is enabled when its turn comes.
  function Exec<T>(p: Pool<T>, n: nat, fetch: nat -> Reading<T>, steps: seq<Action>): Option<Pool<T>>
    decreases |steps|
  {
    if steps == [] then Some(p)
    else if Enabled(p, n, steps[0]) then Exec(Next(p, n, fetch, steps[0]), n, fetch, steps[1..])
    else None
  }

  // --- the invariant --------------------------------------------------------------

  predicate Busy(w: Worker) { w.Holding? || w.Fetching? || w.Fetched? }

  ghost predicate Held<T>(p: Pool<T>, i: nat) {
    exists w :: 0 <= w < |p.workers| && Busy(p.workers[w]) && p.workers[w].i == i
  }

  function Requests(ws: seq<Worker>): nat {
    if ws == [] then 0 else Requests(ws[..|ws| - 1]) + if ws[|ws| - 1].Fetching? then 1 else 0
  }

  ghost predicate Inv<T>(p: Pool<T>, n: nat, fetch: nat -> Reading<T>) {
    && |p.out| == n && p.next <= n && |p.workers| > 0
    && (p.closed ==> p.next == n)
    && (forall w :: 0 <= w < |p.workers| && p.workers[w].Left? ==> p.closed)
    // every index handed out is with one worker or finished, once
    && (forall w :: 0 <= w < |p.workers| && Busy(p.workers[w]) ==>
         p.workers[w].i < p.next && p.workers[w].i !in p.finished)
    && (forall v, w :: 0 <= v < w < |p.workers| && Busy(p.workers[v]) && Busy(p.workers[w]) ==>
          p.workers[v].i != p.workers[w].i)
    && (forall x, y :: 0 <= x < y < |p.finished| ==> p.finished[x] != p.finished[y])
    && (forall i :: i in p.finished ==> i < p.next)
    && (forall i :: 0 <= i < p.next ==> i in p.finished || Held(p, i))
    // without an error everything finished was read and kept
    && (p.firstErr.None? ==> forall i :: i in p.finished ==> fetch(i).Got? && p.out[i] == Some(fetch(i).obj))
    && (p.firstErr.Some? ==> p.firstErr.value < n && fetch(p.firstErr.value).Failed?)
    // requests still out when the first error is recorded are the only late ones
    && (if p.firstErr.None? then p.late == 0 else p.late + Requests(p.workers) < |p.workers|)
  }

  lemma {:induction false} RequestsUpdate(ws: seq<Worker>, w: nat, x: Worker)
    requires w < |ws|
    ensures Requests(ws[w := x]) + (if ws[w].Fetching? then 1 else 0) == Requests(ws) + (if x.Fetching? then 1 else 0)
  {
    var n := |ws| - 1;
    if w < n {
      assert ws[w := x][..n] == ws[..n][w := x];
      RequestsUpdate(ws[..n], w, x);
    } else {
      assert ws[w := x][..n] == ws[..n];
    }
  }

  lemma {:induction false} RequestsBound(ws: seq<Worker>, w: nat)
    requires w < |ws| && !ws[w].Fetching?
    ensures Requests(ws) < |ws|
  {
    var n := |ws| - 1;
    if w < n {
      RequestsBound(ws[..n], w);
    } else {
      RequestsAtMost(ws[..n]);
    }
  }

  lemma {:induction false} RequestsAtMost(ws: seq<Worker>)
    ensures Requests(ws) <= |ws|
  {
    if ws != [] { RequestsAtMost(ws[..|ws| - 1]); }
  }

  lemma {:induction false} NoRequests(ws: seq<Worker>)
    requires forall w :: 0 <= w < |ws| ==> !ws[w].Fetching?
    ensures Requests(ws) == 0
  {
    if ws != [] { NoRequests(ws[..|ws| - 1]); }
  }

  lemma BeginInv<T>(n: nat, workers: nat, fetch: nat -> Reading<T>)
    requires workers > 0
    ensures Inv(Begin(n, workers), n, fetch)
  {
  }

  // Who holds what, after one worker changed.
  lemma HeldAfter<T>(p: Pool<T>, q: Pool<T>, w: nat)
    requires w < |p.workers| == |q.workers| && q.workers == p.workers[w := q.workers[w]]
    ensures forall i :: Held(p, i) && !(Busy(p.workers[w]) && p.workers[w].i == i) ==> Held(q, i)
    ensures Busy(q.workers[w]) ==> Held(q, q.workers[w].i)
  {
    forall i | Held(p, i) && !(Busy(p.workers[w]) && p.workers[w].i == i)
      ensures Held(q, i)
    {
      var v :| 0 <= v < |p.workers| && Busy(p.workers[v]) && p.workers[v].i == i;
      assert q.workers[v] == p.workers[v];
    }
  }

  lemma HandInv<T>(p: Pool<T>, n: nat, fetch: nat -> Reading<T>, w: nat)
    requires Inv(p, n, fetch) && Enabled(p, n, Hand(w))
    ensures Inv(Next(p, n, fetch, Hand(w)), n, fetch)
  {
    hide Requests, Held;
    var q := Next(p, n, fetch, Hand(w));
    HeldAfter(p, q, w);
    RequestsUpdate(p.workers, w, q.workers[w]);
  }

  lemma LeaveInv<T>(p: Pool<T>, n: nat, fetch: nat -> Reading<T>, w: nat)
    requires Inv(p, n, fetch) && Enabled(p, n, Leave(w))
    ensures Inv(Next(p, n, fetch, Leave(w)), n, fetch)
  {
    hide Requests, Held;
    var q := Next(p, n, fetch, Leave(w));
    HeldAfter(p, q, w);
    RequestsUpdate(p.workers, w, q.workers[w]);
  }

  lemma LookInv<T>(p: Pool<T>, n: nat, fetch: nat -> Reading<T>, w: nat)
    requires Inv(p, n, fetch) && Enabled(p, n, Look(w))
    ensures Inv(Next(p, n, fetch, Look(w)), n, fetch)
  {
    hide Requests, Held;
    var q := Next(p, n, fetch, Look(w));
    HeldAfter(p, q, w);
    RequestsUpdate(p.workers, w, q.workers[w]);
  }

  lemma AnswerInv<T>(p: Pool<T>, n: nat, fetch: nat -> Reading<T>, w: nat)
    requires Inv(p, n, fetch) && Enabled(p, n, Answer(w))
    ensures Inv(Next(p, n, fetch, Answer(w)), n, fetch)
  {
    hide Requests, Held;
    var q := Next(p, n, fetch, Answer(w));
    HeldAfter(p, q, w);
    RequestsUpdate(p.workers, w, q.workers[w]);
  }

  lemma RecordInv<T>(p: Pool<T>, n: nat, fetch: nat -> Reading<T>, w: nat)
    requires Inv(p, n, fetch) && Enabled(p, n, Record(w))
    ensures Inv(Next(p, n, fetch, Record(w)), n, fetch)
  {
    hide Requests, Held;
    var q := Next(p, n, fetch, Record(w));
    HeldAfter(p, q, w);
    RequestsUpdate(p.workers, w, q.workers[w]);
    RequestsBound(q.workers, w);
  }

  lemma NextInv<T>(p: Pool<T>, n: nat, fetch: nat -> Reading<T>, a: Action)
    requires Inv(p, n, fetch) && Enabled(p, n, a)
    ensures Inv(Next(p, n, fetch, a), n, fetch)
  {
    hide Requests, Held, Enabled;
    match a {
      case Close => CloseInv(p, n, fetch);
      case Hand(w) => HandInv(p, n, fetch, w);
      case Leave(w) => LeaveInv(p, n, fetch, w);
      case Look(w) => LookInv(p, n, fetch, w);
      case Answer(w) => AnswerInv(p, n, fetch, w);
      case Record(w) => RecordInv(p, n, fetch, w);
    }
  }

  lemma CloseInv<T>(p: Pool<T>, n: nat, fetch: nat -> Reading<T>)
    requires Inv(p, n, fetch) && Enabled(p, n, Close)
    ensures Inv(Next(p, n, fetch, Close), n, fetch)
  {
    hide Requests, Held;
    HeldSame(p, Next(p, n, fetch, Close));
  }

  lemma HeldSame<T>(p: Pool<T>, q: Pool<T>)
    requires q.workers == p.workers
    ensures forall i :: Held(p, i) ==> Held(q, i)
  {
  }

  // --- progress ---------------------------------------------------------------------

  function Rank(w: Worker): nat {
    match w
    case Holding(_) => 4
    case Fetching(_) => 3
    case Fetched(_) => 2
    case Waiting => 1
    case Left => 0
  }

  function Ranks(ws: seq<Worker>): nat {
    if ws == [] then 0 else Ranks(ws[..|ws| - 1]) + Rank(ws[|ws| - 1])
  }

  // What is still to do.
  function ToDo<T>(p: Pool<T>, n: nat): nat
    requires p.next <= n
  {
    6 * (n - p.next) + (if p.closed then 0 else 1) + Ranks(p.workers)
  }

  lemma {:induction false} RanksUpdate(ws: seq<Worker>, w: nat, x: Worker)
    requires w < |ws|
    ensures Ranks(ws[w := x]) + Rank(ws[w]) == Ranks(ws) + Rank(x)
  {
    var n := |ws| - 1;
    if w < n {
      assert ws[w := x][..n] == ws[..n][w := x];
      RanksUpdate(ws[..n], w, x);
    } else {
      assert ws[w := x][..n] == ws[..n];
    }
  }

  lemma StepsDecrease<T>(p: Pool<T>, n: nat, fetch: nat -> Reading<T>, a: Action)
    requires p.next <= n && Enabled(p, n, a)
    ensures Next(p, n, fetch, a).next <= n && ToDo(Next(p, n, fetch, a), n) < ToDo(p, n)
  {
    hide Ranks;
    var q := Next(p, n, fetch, a);
    match a {
      case Close =>
      case Hand(w) => RanksUpdate(p.workers, w, q.workers[w]);
      case Leave(w) => RanksUpdate(p.workers, w, q.workers[w]);
      case Look(w) => RanksUpdate(p.workers, w, q.workers[w]);
      case Answer(w) => RanksUpdate(p.workers, w, q.workers[w]);
      case Record(w) => RanksUpdate(p.workers, w, q.workers[w]);
    }
  }

  // No deadlock: until every worker has left, some step can be taken, after an
  // error too.
  lemma SomeStepEnabled<T>(p: Pool<T>, n: nat, fetch: nat -> Reading<T>) returns (a: Action)
    requires Inv(p, n, fetch) && !Over(p)
    ensures Enabled(p, n, a)
  {
    var w: nat :| w < |p.workers| && !p.workers[w].Left?;
    a := match p.workers[w]
      case Holding(_) => Look(w)
      case Fetching(_) => Answer(w)
      case Fetched(_) => Record(w)
      case _ => if p.closed then Leave(w) else if p.next < n then Hand(w) else Close;
  }

  // --- main results -------------------------------------------------------------------

  // In every run, after any number of steps: the invariant holds, and the steps
  // taken and the work left together never exceed the work there was, so every
  // interleaving ends.
  lemma {:induction false} EveryRun<T>(p: Pool<T>, n: nat, fetch: nat -> Reading<T>, steps: seq<Action>)
    requires Inv(p, n, fetch) && Exec(p, n, fetch, steps).Some?
    ensures var q := Exec(p, n, fetch, steps).value;
            && Inv(q, n, fetch) && |steps| + ToDo(q, n) <= ToDo(p, n)
    decreases |steps|
  {
    hide Inv, Next, Ranks;
    if steps != [] {
      NextInv(p, n, fetch, steps[0]);
      OutBounds(p, n, fetch);
      StepsDecrease(p, n, fetch, steps[0]);
      EveryRun(Next(p, n, fetch, steps[0]), n, fetch, steps[1..]);
    } else {
      OutBounds(p, n, fetch);
    }
  }

  lemma OutBounds<T>(p: Pool<T>, n: nat, fetch: nat -> Reading<T>)
    requires Inv(p, n, fetch)
    ensures p.next <= n
  {
  }

  // When the run is over, every index was dealt with exactly once.
  lemma EveryIndexOnce<T>(p: Pool<T>, n: nat, fetch: nat -> Reading<T>)
    requires Inv(p, n, fetch) && Over(p)
    ensures |p.finished| == n
    ensures forall i :: 0 <= i < n <==> i in p.finished
    ensures forall x, y :: 0 <= x < y < |p.finished| ==> p.finished[x] != p.finished[y]
  {
    assert p.workers[0].Left?;
    DistinctBelow(p.finished, n);
  }

  lemma SomeElement(s: seq<nat>)
    requires s != []
    ensures exists i :: i in s
  {
    assert s[0] in s;
  }

  lemma {:induction false} DistinctBelow(s: seq<nat>, n: nat)
    requires forall i :: 0 <= i < n <==> i in s
    requires forall x, y :: 0 <= x < y < |s| ==> s[x] != s[y]
    ensures |s| == n
  {
    if n == 0 {
      if s != [] { SomeElement(s); }
    } else {
      assert n - 1 in s;
      var x :| 0 <= x < |s| && s[x] == n - 1;
      var t := s[..x] + s[x + 1..];
      assert forall y :: 0 <= y < |t| ==> t[y] == s[if y < x then y else y + 1];
      forall i | 0 <= i < n - 1
        ensures i in t
      {
        assert i in s;
        var y :| 0 <= y < |s| && s[y] == i;
        assert t[if y < x then y else y - 1] == i;
      }
      forall i | i in t
        ensures 0 <= i < n - 1
      {
        var y :| 0 <= y < |t| && t[y] == i;
        assert s[if y < x then y else y + 1] in s;
      }
      DistinctBelow(t, n - 1);
    }
  }

  // The outcome does not depend on the interleaving: the call succeeds exactly
  // when every read succeeds, and then the object of stub i is at position i for
  // every i; otherwise it fails with one of the errors there were.
  lemma OutcomeOfEveryRun<T>(n: nat, fetch: nat -> Reading<T>, steps: seq<Action>)
    requires Exec(Begin(n, WORKERS), n, fetch, steps).Some?
    requires Over(Exec(Begin(n, WORKERS), n, fetch, steps).value)
    ensures var p := Exec(Begin(n, WORKERS), n, fetch, steps).value;
            && (p.firstErr.None? <==> forall i :: 0 <= i < n ==> fetch(i).Got?)
            && (p.firstErr.None? ==> |p.out| == n && forall i :: 0 <= i < n ==> p.out[i] == Some(fetch(i).obj))
            && (p.firstErr.Some? ==> p.firstErr.value < n && fetch(p.firstErr.value).Failed?)
  {
    hide Begin, Next, Exec;
    BeginInv(n, WORKERS, fetch);
    EveryRun(Begin(n, WORKERS), n, fetch, steps);
    EveryIndexOnce(Exec(Begin(n, WORKERS), n, fetch, steps).value, n, fetch);
  }

  // After the first error is recorded, at most one request per other worker is
  // still answered.
  lemma FewLateAnswers<T>(n: nat, fetch: nat -> Reading<T>, steps: seq<Action>)
    requires Exec(Begin(n, WORKERS), n, fetch, steps).Some?
    ensures Exec(Begin(n, WORKERS), n, fetch, steps).value.late <= WORKERS - 1
  {
    hide Next, Requests;
    BeginInv(n, WORKERS, fetch);
    EveryRun(Begin(n, WORKERS), n, fetch, steps);
    WorkersStay(Begin(n, WORKERS), n, fetch, steps);
  }

  lemma {:induction false} WorkersStay<T>(p: Pool<T>, n: nat, fetch: nat -> Reading<T>, steps: seq<Action>)
    requires Exec(p, n, fetch, steps).Some?
    ensures |Exec(p, n, fetch, steps).value.workers| == |p.workers|
    decreases |steps|
  {
    if steps != [] { WorkersStay(Next(p, n, fetch, steps[0]), n, fetch, steps[1..]); }
  }

  // The whole call, its workers scheduled in any way at all.
  method ErsGetAll<T>(n: nat, fetch: nat -> Reading<T>) returns (out: seq<T>, err: bool)
    ensures err <==> exists i :: 0 <= i < n && fetch(i).Failed?
    ensures !err ==> |out| == n && forall i :: 0 <= i < n ==> fetch(i) == Got(out[i])
  {
    hide Next, ToDo;
    var p: Pool<T> := Begin(n, WORKERS);
    BeginInv(n, WORKERS, fetch);
    while !Over(p)
      invariant Inv(p, n, fetch)
      decreases if p.next <= n then ToDo(p, n) else 0
    {
      ghost var some := SomeStepEnabled(p, n, fetch);
      var a :| a in Steps(|p.workers|) && Enabled(p, n, a);
      NextInv(p, n, fetch, a);
      StepsDecrease(p, n, fetch, a);
      p := Next(p, n, fetch, a);
    }
    EveryIndexOnce(p, n, fetch);
    err := p.firstErr.Some?;
    out := [];
    if !err {
      for i := 0 to n
        invariant |out| == i && forall j :: 0 <= j < i ==> fetch(j) == Got(out[j])
      {
        out := out + [p.out[i].value];
      }
    }
  }

  // Every step there can be among so many workers.
  function Steps(workers: nat): (steps: set<Action>)
    ensures Close in steps
    ensures forall w :: 0 <= w < workers ==> {Hand(w), Leave(w), Look(w), Answer(w), Record(w)} <= steps
  {
    if workers == 0 then {Close}
    else
      var w := workers - 1;
      Steps(w) + {Hand(w), Leave(w), Look(w), Answer(w), Record(w)}
  }
}
