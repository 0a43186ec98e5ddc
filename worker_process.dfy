// The worker process's task messages and priority queues, and the main
// process's table of pending callbacks (workerprocess.py). The locks and
// condition variables are left out: every operation here is one atomic step.

module WorkerProcess {
  import opened Base

  // ------------------------------------------------------------ messages

  /** What each TaskMessage subclass carries. */
  datatype Body =
    | FeedparserTask(html: string)
    | MovieDataProgramTask(sourcePath: string, screenshotDirectory: string)
    | MutagenTask(sourcePath: string, coverArtDirectory: string)
    | CancelFileOperations(paths: seq<string>)

  /** A TaskMessage: the id it took from the shared counter, and its subclass's fields. */
  datatype TaskMessage = TaskMessage(taskId: nat, body: Body)

  /** The TaskMessage subclasses themselves. */
  datatype Kind = Feedparser | MovieData | Mutagen | Cancel

  function KindOf(m: TaskMessage): Kind
  {
    match m.body
    case FeedparserTask(_) => Feedparser
    case MovieDataProgramTask(_, _) => MovieData
    case MutagenTask(_, _) => Mutagen
    case CancelFileOperations(_) => Cancel
  }

  /** The class attribute `priority` of each subclass. */
  function Priority(k: Kind): int
  {
    match k
    case Feedparser => 20
    case MovieData => 10
    case Mutagen => 10
    case Cancel => 0
  }

  /** The distinct priorities in descending order: the order of queues_by_priority. */
  const Priorities: seq<int> := [20, 10, 0]

  /** Where queue_map files a priority: its index in queues_by_priority. */
  function LevelIndex(p: int): (i: nat)
    requires p in Priorities
    ensures i < |Priorities| && Priorities[i] == p
  {
    if p == 20 then 0 else if p == 10 then 1 else 2
  }

  lemma PrioritiesDescending()
    ensures forall i, j :: 0 <= i < j < |Priorities| ==> Priorities[i] > Priorities[j]
    ensures forall k: Kind :: Priority(k) in Priorities
  {
  }

  /** The classes of one priority, in the order `kinds` lists them. */
  function ClassesAt(kinds: seq<Kind>, p: int): (r: seq<Kind>)
    ensures forall k :: k in r <==> k in kinds && Priority(k) == p
    ensures Distinct(kinds) ==> Distinct(r)
  {
    if kinds == [] then []
    else (if Priority(kinds[0]) == p then [kinds[0]] else []) + ClassesAt(kinds[1..], p)
  }

  predicate Distinct<T(==)>(s: seq<T>)
  {
    forall i, j :: 0 <= i < j < |s| ==> s[i] != s[j]
  }

  /** Every TaskMessage subclass exactly once, in some order: util.all_subclasses. */
  predicate EnumeratesKinds(kinds: seq<Kind>)
  {
    Distinct(kinds) && forall k: Kind :: k in kinds
  }

  /** The position of `k` in a list of distinct classes. */
  function IndexOf(classes: seq<Kind>, k: Kind): (i: nat)
    requires k in classes
    ensures i < |classes| && classes[i] == k
    ensures Distinct(classes) ==> forall j :: 0 <= j < |classes| && classes[j] == k ==> j == i
  {
    if classes[0] == k then 0 else 1 + IndexOf(classes[1..], k)
  }

  // ------------------------------------------------------------ the task ids

  /** TaskMessage._id_counter: one itertools.count() shared by every task message. */
  class TaskIdCounter {
    var next: nat
    /** The ids handed out so far. */
    ghost var issued: set<nat>

    ghost predicate Valid()
      reads this
    {
      forall id :: id in issued ==> id < next
    }

    constructor()
      ensures next == 0 && issued == {} && Valid()
    {
      next := 0;
      issued := {};
    }

    /** TaskMessage.__init__: the new message takes the counter's next value. */
    method NewTask(body: Body) returns (m: TaskMessage)
      requires Valid()
      modifies this
      ensures m.body == body && m.taskId == old(next)
      ensures m.taskId !in old(issued)
      ensures forall id :: id in old(issued) ==> id < m.taskId
      ensures next == old(next) + 1 && issued == old(issued) + {m.taskId}
      ensures Valid()
    {
      m := TaskMessage(next, body);
      issued := issued + {next};
      next := next + 1;
    }
  }

  // ------------------------------------------------------------ one priority level

  /** The state of a _SinglePriorityQueue: its classes, a FIFO per class and the cycler's position. */
  datatype LevelState = LevelState(classes: seq<Kind>, fifos: seq<seq<TaskMessage>>, cursor: nat)

  predicate AllEmpty(fifos: seq<seq<TaskMessage>>)
  {
    forall c :: 0 <= c < |fifos| ==> fifos[c] == []
  }

  /** Index `i` of `n` slots taken round the end once: `i % n` for `i < 2 * n`. */
  function Wrap(i: nat, n: nat): (r: nat)
    requires i < 2 * n
    ensures r < n && (r == i || r == i - n)
  {
    if i < n then i else i - n
  }

  /** The FIFO the cycler yields `j` steps after `cursor`. */
  function At(fifos: seq<seq<TaskMessage>>, cursor: nat, j: nat): seq<TaskMessage>
    requires cursor < |fifos| && j < |fifos|
  {
    fifos[Wrap(cursor + j, |fifos|)]
  }

  /** The offset from `cursor` of the first non-empty FIFO at offset `i` or later, going round once. */
  function FirstReady(fifos: seq<seq<TaskMessage>>, cursor: nat, i: nat): (r: Option<nat>)
    requires cursor < |fifos|
    ensures r.None? <==> forall j :: i <= j < |fifos| ==> At(fifos, cursor, j) == []
    ensures r.Some? ==> i <= r.value < |fifos| && At(fifos, cursor, r.value) != []
    ensures r.Some? ==> forall j :: i <= j < r.value ==> At(fifos, cursor, j) == []
    decreases |fifos| - i
  {
    if i >= |fifos| then None
    else if At(fifos, cursor, i) != [] then Some(i)
    else FirstReady(fifos, cursor, i + 1)
  }

  /** A level state whose cycler points at one of its FIFOs. */
  predicate CursorOk(s: LevelState)
  {
    |s.fifos| > 0 ==> s.cursor < |s.fifos|
  }

  /**
   * _SinglePriorityQueue.get_next_task on a state: the head of the first
   * non-empty FIFO the cycler reaches, the cycler left just past it; or
   * nothing, the cycler having gone round once and one step more.
   */
  function TakeFrom(s: LevelState): (r: (Option<TaskMessage>, LevelState))
    requires CursorOk(s)
    ensures CursorOk(r.1) && r.1.classes == s.classes && |r.1.fifos| == |s.fifos|
  {
    var n := |s.fifos|;
    if n == 0 then (None, s)
    else match FirstReady(s.fifos, s.cursor, 0)
      case None => (None, s.(cursor := Wrap(s.cursor + 1, n)))
      case Some(k) =>
        var c := Wrap(s.cursor + k, n);
        (Some(s.fifos[c][0]), s.(fifos := s.fifos[c := s.fifos[c][1..]], cursor := Wrap(c + 1, n)))
  }

  /** Going once round from any cursor visits every FIFO. */
  lemma OffsetReaches(fifos: seq<seq<TaskMessage>>, cursor: nat, c: nat)
    requires cursor < |fifos| && c < |fifos|
    ensures var j := if c >= cursor then c - cursor else c + |fifos| - cursor;
      j < |fifos| && At(fifos, cursor, j) == fifos[c]
  {
  }

  /** get_next_task returns None exactly when every FIFO of the priority is empty. */
  lemma TakeNoneIffEmpty(s: LevelState)
    requires CursorOk(s)
    ensures TakeFrom(s).0.None? <==> AllEmpty(s.fifos)
  {
    var n := |s.fifos|;
    if n > 0 && FirstReady(s.fifos, s.cursor, 0).None? {
      forall c | 0 <= c < n
        ensures s.fifos[c] == []
      {
        OffsetReaches(s.fifos, s.cursor, c);
      }
    }
  }

  /**
   * An empty scan changes no FIFO; the cycler, having yielded fifo_count + 1
   * FIFOs, ends one past where it started.
   */
  lemma TakeFromEmpty(s: LevelState)
    requires CursorOk(s) && AllEmpty(s.fifos) && |s.fifos| > 0
    ensures TakeFrom(s).1 == s.(cursor := Wrap(s.cursor + 1, |s.fifos|))
  {
    TakeNoneIffEmpty(s);
  }

  /** The FIFO get_next_task pops from, when one is non-empty. */
  function NextSlot(s: LevelState): (c: nat)
    requires CursorOk(s) && !AllEmpty(s.fifos)
    ensures c < |s.fifos| && s.fifos[c] != []
  {
    TakeNoneIffEmpty(s);
    var k := FirstReady(s.fifos, s.cursor, 0).value;
    Wrap(s.cursor + k, |s.fifos|)
  }

  /**
   * FIFO within a class, round robin across classes: the popped task is the
   * head of its FIFO, only that FIFO shrinks, and the next scan starts at
   * the FIFO after it.
   */
  lemma TakePopsHead(s: LevelState)
    requires CursorOk(s) && !AllEmpty(s.fifos)
    ensures var c := NextSlot(s);
      TakeFrom(s).0 == Some(s.fifos[c][0]) &&
      TakeFrom(s).1 == s.(fifos := s.fifos[c := s.fifos[c][1..]], cursor := Wrap(c + 1, |s.fifos|))
  {
    TakeNoneIffEmpty(s);
  }

  /** When every FIFO holds a task, the cycler's FIFO is the one served. */
  lemma TakeServesCursor(s: LevelState)
    requires |s.fifos| > 0 && s.cursor < |s.fifos|
    requires forall c :: 0 <= c < |s.fifos| ==> s.fifos[c] != []
    ensures !AllEmpty(s.fifos) && NextSlot(s) == s.cursor
  {
    assert At(s.fifos, s.cursor, 0) != [];
  }

  /** The messages of `s` that `keep` accepts, in their order. */
  function Keep(s: seq<TaskMessage>, keep: TaskMessage -> bool): seq<TaskMessage>
  {
    if s == [] then []
    else Keep(s[..|s| - 1], keep) + (if keep(s[|s| - 1]) then [s[|s| - 1]] else [])
  }

  /** Keep drops exactly the rejected messages. */
  lemma {:induction false} KeepMembers(s: seq<TaskMessage>, keep: TaskMessage -> bool, m: TaskMessage)
    ensures m in Keep(s, keep) <==> m in s && keep(m)
    decreases |s|
  {
    if s != [] {
      KeepMembers(s[..|s| - 1], keep, m);
      assert s == s[..|s| - 1] + [s[|s| - 1]];
    }
  }

  /** Keep preserves order: filtering a concatenation filters each part. */
  lemma {:induction false} KeepConcat(a: seq<TaskMessage>, b: seq<TaskMessage>, keep: TaskMessage -> bool)
    ensures Keep(a + b, keep) == Keep(a, keep) + Keep(b, keep)
    decreases |b|
  {
    if b == [] {
      assert a + b == a;
    } else {
      var b0, x := b[..|b| - 1], b[|b| - 1];
      var tail := if keep(x) then [x] else [];
      assert (a + b)[..|a + b| - 1] == a + b0;
      assert (a + b)[|a + b| - 1] == x;
      assert Keep(a + b, keep) == Keep(a + b0, keep) + tail;
      assert Keep(b, keep) == Keep(b0, keep) + tail;
      KeepConcat(a, b0, keep);
    }
  }

  /** _SinglePriorityQueue's invariant: one FIFO per class, each holding messages of its class only. */
  ghost predicate LevelInv(priority: int, s: LevelState)
  {
    |s.fifos| == |s.classes| && Distinct(s.classes) &&
    CursorOk(s) &&
    (forall c :: 0 <= c < |s.classes| ==> Priority(s.classes[c]) == priority) &&
    (forall c, i :: 0 <= c < |s.fifos| && 0 <= i < |s.fifos[c]| ==> KindOf(s.fifos[c][i]) == s.classes[c])
  }

  /** add_task on a state: `m` joins the tail of its class's FIFO. */
  function FileIn(s: LevelState, m: TaskMessage): LevelState
    requires |s.fifos| == |s.classes| && KindOf(m) in s.classes
  {
    var c := IndexOf(s.classes, KindOf(m));
    s.(fifos := s.fifos[c := s.fifos[c] + [m]])
  }

  /** filter_messages on a state: the FIFO of `cls` keeps the messages `keep` accepts. */
  function FilterIn(s: LevelState, keep: TaskMessage -> bool, cls: Kind): LevelState
    requires |s.fifos| == |s.classes| && cls in s.classes
  {
    var c := IndexOf(s.classes, cls);
    s.(fifos := s.fifos[c := Keep(s.fifos[c], keep)])
  }

  lemma TakeKeepsLevelInv(priority: int, s: LevelState)
    requires LevelInv(priority, s)
    ensures LevelInv(priority, TakeFrom(s).1)
  {
    var s' := TakeFrom(s).1;
    if !AllEmpty(s.fifos) {
      TakePopsHead(s);
      var c := NextSlot(s);
      forall d, i | 0 <= d < |s'.fifos| && 0 <= i < |s'.fifos[d]|
        ensures KindOf(s'.fifos[d][i]) == s'.classes[d]
      {
        if d == c {
          assert s'.fifos[d][i] == s.fifos[d][i + 1];
        }
      }
    }
  }

  lemma FilterKeepsLevelInv(priority: int, s: LevelState, keep: TaskMessage -> bool, cls: Kind)
    requires LevelInv(priority, s) && cls in s.classes
    ensures LevelInv(priority, FilterIn(s, keep, cls))
  {
    var s' := FilterIn(s, keep, cls);
    var c0 := IndexOf(s.classes, cls);
    forall c, i | 0 <= c < |s'.fifos| && 0 <= i < |s'.fifos[c]|
      ensures KindOf(s'.fifos[c][i]) == s'.classes[c]
    {
      if c == c0 {
        var m := s'.fifos[c][i];
        assert m in s'.fifos[c];
        KeepMembers(s.fifos[c], keep, m);
        var j :| 0 <= j < |s.fifos[c]| && s.fifos[c][j] == m;
      }
    }
  }

  /** A new _SinglePriorityQueue: an empty FIFO for each class of the priority. */
  function EmptyLevel(kinds: seq<Kind>, p: int): (s: LevelState)
    ensures s.classes == ClassesAt(kinds, p) && AllEmpty(s.fifos) && s.cursor == 0
  {
    LevelState(ClassesAt(kinds, p), seq(|ClassesAt(kinds, p)|, _ => []), 0)
  }

  /** _init_queues: a level per priority, highest first, from the classes all_subclasses lists. */
  function EmptyQueues(kinds: seq<Kind>): seq<LevelState>
  {
    [EmptyLevel(kinds, 20), EmptyLevel(kinds, 10), EmptyLevel(kinds, 0)]
  }

  lemma EmptyQueuesInv(kinds: seq<Kind>)
    requires EnumeratesKinds(kinds)
    ensures QueueInv(EmptyQueues(kinds))
  {
    var sts := EmptyQueues(kinds);
    forall i | 0 <= i < |sts|
      ensures LevelInv(Priorities[i], sts[i])
      ensures forall k: Kind :: k in sts[i].classes <==> Priority(k) == Priorities[i]
    {
      assert sts[i] == EmptyLevel(kinds, Priorities[i]);
    }
  }

  /** _SinglePriorityQueue: FIFOs for the classes of one priority and a persistent cycler over them. */
  class SinglePriorityQueue {
    const priority: int
    /** The keys of fifo_map, in the cycler's order. */
    const classes: seq<Kind>
    /** fifo_map's values: the FIFO of each class, head first. */
    var fifos: seq<seq<TaskMessage>>
    /** fifo_cycler: the index of the FIFO it yields next. */
    var cursor: nat

    function State(): LevelState
      reads this
    {
      LevelState(classes, fifos, cursor)
    }

    ghost predicate Valid()
      reads this
    {
      LevelInv(priority, State())
    }

    /** _SinglePriorityQueue(priority): an empty FIFO for every class of that priority. */
    constructor(priority: int, kinds: seq<Kind>)
      requires Distinct(kinds)
      ensures this.priority == priority && State() == EmptyLevel(kinds, priority)
      ensures Valid()
    {
      this.priority := priority;
      classes := ClassesAt(kinds, priority);
      fifos := seq(|ClassesAt(kinds, priority)|, _ => []);
      cursor := 0;
    }

    /** add_task: KeyError (false) for a class not of this priority. */
    method AddTask(m: TaskMessage) returns (ok: bool)
      requires Valid()
      modifies this`fifos
      ensures ok <==> KindOf(m) in classes
      ensures ok ==> State() == FileIn(old(State()), m)
      ensures !ok ==> fifos == old(fifos)
      ensures Valid()
    {
      if KindOf(m) !in classes {
        return false;
      }
      var c := IndexOf(classes, KindOf(m));
      fifos := fifos[c := fifos[c] + [m]];
      ok := true;
    }

    /** get_next_task: the next task of this priority, or None when all its FIFOs are empty. */
    method GetNextTask() returns (t: Option<TaskMessage>)
      requires Valid()
      modifies this`fifos, this`cursor
      ensures (t, State()) == TakeFrom(old(State()))
      ensures Valid()
    {
      TakeKeepsLevelInv(priority, State());
      var n := |fifos|;
      if n == 0 {
        return None;
      }
      var i := 0;
      while i < n && At(fifos, cursor, i) == []
        invariant 0 <= i <= n
        invariant forall j :: 0 <= j < i ==> At(fifos, cursor, j) == []
      {
        i := i + 1;
      }
      if i == n {
        cursor := Wrap(cursor + 1, n);
        return None;
      }
      var c := Wrap(cursor + i, n);
      t := Some(fifos[c][0]);
      fifos := fifos[c := fifos[c][1..]];
      cursor := Wrap(c + 1, n);
    }

    /** filter_messages: KeyError (false) for a class not of this priority. */
    method FilterMessages(keep: TaskMessage -> bool, cls: Kind) returns (ok: bool)
      requires Valid()
      modifies this`fifos
      ensures ok <==> cls in classes
      ensures ok ==> State() == FilterIn(old(State()), keep, cls)
      ensures !ok ==> fifos == old(fifos)
      ensures Valid()
    {
      if cls !in classes {
        return false;
      }
      var c := IndexOf(classes, cls);
      var fifo := fifos[c];
      var kept := [];
      var i := 0;
      while i < |fifo|
        invariant 0 <= i <= |fifo|
        invariant kept == Keep(fifo[..i], keep)
      {
        assert fifo[..i + 1][..i] == fifo[..i];
        if keep(fifo[i]) {
          kept := kept + [fifo[i]];
        }
        i := i + 1;
      }
      assert fifo[..i] == fifo;
      FilterKeepsLevelInv(priority, State(), keep, cls);
      fifos := fifos[c := kept];
      ok := true;
    }
  }

  // ------------------------------------------------------------ all the priorities

  /** _get_next_task on states: the first level, highest priority first, that has a task serves it. */
  function TakeFirst(sts: seq<LevelState>, i: nat): (Option<TaskMessage>, seq<LevelState>)
    requires Cursors(sts)
    decreases |sts| - i
  {
    if i >= |sts| then (None, sts)
    else
      var r := TakeFrom(sts[i]);
      if r.0.Some? then (r.0, sts[i := r.1])
      else TakeFirst(sts[i := r.1], i + 1)
  }

  predicate Cursors(sts: seq<LevelState>)
  {
    forall k :: 0 <= k < |sts| ==> CursorOk(sts[k])
  }

  /** The first level at `i` or later with a queued task. */
  function FirstBusy(sts: seq<LevelState>, i: nat): (r: Option<nat>)
    ensures r.None? <==> forall k :: i <= k < |sts| ==> AllEmpty(sts[k].fifos)
    ensures r.Some? ==> i <= r.value < |sts| && !AllEmpty(sts[r.value].fifos)
    ensures r.Some? ==> forall k :: i <= k < r.value ==> AllEmpty(sts[k].fifos)
    decreases |sts| - i
  {
    if i >= |sts| then None
    else if !AllEmpty(sts[i].fifos) then Some(i)
    else FirstBusy(sts, i + 1)
  }

  /**
   * Strict priority: _get_next_task returns nothing exactly when every level
   * is empty, and otherwise the task of the first non-empty level, every
   * level before it being empty.
   */
  lemma {:induction false} TakeFirstIsFirstBusy(sts: seq<LevelState>, i: nat)
    requires Cursors(sts)
    ensures TakeFirst(sts, i).0.None? <==> FirstBusy(sts, i).None?
    ensures FirstBusy(sts, i).Some? ==>
      TakeFirst(sts, i).0 == TakeFrom(sts[FirstBusy(sts, i).value]).0
    decreases |sts| - i
  {
    if i < |sts| {
      var r := TakeFrom(sts[i]);
      TakeNoneIffEmpty(sts[i]);
      if r.0.None? {
        var sts' := sts[i := r.1];
        TakeFirstIsFirstBusy(sts', i + 1);
        assert r.1.fifos == sts[i].fifos;
        assert forall k :: i + 1 <= k < |sts| ==> sts'[k] == sts[k];
        assert FirstBusy(sts', i + 1) == FirstBusy(sts, i + 1) by {
          FirstBusyFrom(sts', sts, i + 1);
        }
      }
    }
  }

  /** FirstBusy looks only at the levels from `i` on. */
  lemma {:induction false} FirstBusyFrom(a: seq<LevelState>, b: seq<LevelState>, i: nat)
    requires |a| == |b| && forall k :: i <= k < |a| ==> a[k] == b[k]
    ensures FirstBusy(a, i) == FirstBusy(b, i)
    decreases |a| - i
  {
    if i < |a| {
      FirstBusyFrom(a, b, i + 1);
    }
  }

  /** The state of WorkerTaskQueue's levels: one per priority, highest first. */
  ghost predicate QueueInv(sts: seq<LevelState>)
  {
    |sts| == |Priorities| &&
    forall i :: 0 <= i < |sts| ==>
      LevelInv(Priorities[i], sts[i]) &&
      (forall k: Kind :: k in sts[i].classes <==> Priority(k) == Priorities[i])
  }

  lemma QueueInvCursors(sts: seq<LevelState>)
    requires QueueInv(sts)
    ensures Cursors(sts)
  {
    assert forall k :: 0 <= k < |sts| ==> LevelInv(Priorities[k], sts[k]);
  }

  /** The task _get_next_task returns comes from the first busy level, and has that level's priority. */
  lemma TakenFromFirstBusy(sts: seq<LevelState>)
    requires QueueInv(sts) && Cursors(sts)
    requires TakeFirst(sts, 0).0.Some?
    ensures FirstBusy(sts, 0).Some?
    ensures Priority(KindOf(TakeFirst(sts, 0).0.value)) == Priorities[FirstBusy(sts, 0).value]
  {
    TakeFirstIsFirstBusy(sts, 0);
    var L := FirstBusy(sts, 0).value;
    var s := sts[L];
    assert LevelInv(Priorities[L], s);
    TakePopsHead(s);
    var c := NextSlot(s);
    assert KindOf(s.fifos[c][0]) == s.classes[c];
  }

  /** The task _get_next_task returns has the highest priority among the queued ones. */
  lemma StrictPriority(sts: seq<LevelState>)
    requires QueueInv(sts) && Cursors(sts)
    requires TakeFirst(sts, 0).0.Some?
    ensures forall k :: 0 <= k < |sts| && Priorities[k] > Priority(KindOf(TakeFirst(sts, 0).0.value)) ==>
      AllEmpty(sts[k].fifos)
  {
    TakenFromFirstBusy(sts);
    var L := FirstBusy(sts, 0).value;
    PrioritiesDescending();
    forall k | 0 <= k < |sts| && Priorities[k] > Priorities[L]
      ensures AllEmpty(sts[k].fifos)
    {
      assert k < L;
    }
  }

  /** add_task on states: the message joins its class's FIFO at its priority's level. */
  function FileTask(sts: seq<LevelState>, m: TaskMessage): seq<LevelState>
    requires QueueInv(sts)
  {
    var i := LevelIndex(Priority(KindOf(m)));
    sts[i := FileIn(sts[i], m)]
  }

  /** A task filed into empty queues makes its priority's level the only busy one, with that task at its head. */
  lemma FiledLevelIsFirstBusy(kinds: seq<Kind>, m: TaskMessage)
    requires EnumeratesKinds(kinds)
    ensures QueueInv(EmptyQueues(kinds))
    ensures var sts := FileTask(EmptyQueues(kinds), m); var L := LevelIndex(Priority(KindOf(m)));
      Cursors(sts) && FirstBusy(sts, 0) == Some(L) && TakeFrom(sts[L]).0 == Some(m)
  {
    EmptyQueuesInv(kinds);
    var e := EmptyQueues(kinds);
    var L := LevelIndex(Priority(KindOf(m)));
    var sts := FileTask(e, m);
    assert e[L] == EmptyLevel(kinds, Priorities[L]);
    var c := IndexOf(e[L].classes, KindOf(m));
    assert e[L].fifos[c] == [];
    assert e[L].fifos[c] + [m] == [m];
    assert sts == e[L := e[L].(fifos := e[L].fifos[c := [m]])];
    assert CursorOk(sts[L]);
    assert Cursors(sts);
    assert sts[L].fifos[c] == [m];
    assert !AllEmpty(sts[L].fifos);
    assert FirstBusy(sts, 0) == Some(L) by {
      assert forall k :: 0 <= k < L ==> sts[k] == e[k];
    }
    TakePopsHead(sts[L]);
    var d := NextSlot(sts[L]);
    assert d == c by {
      assert forall j :: 0 <= j < |sts[L].fifos| && j != c ==> sts[L].fifos[j] == e[L].fifos[j];
    }
  }

  /** A task filed into empty queues is the next one handed out. */
  lemma FiledTaskIsNext(kinds: seq<Kind>, m: TaskMessage)
    requires EnumeratesKinds(kinds)
    ensures QueueInv(EmptyQueues(kinds))
    ensures var sts := FileTask(EmptyQueues(kinds), m); Cursors(sts) && TakeFirst(sts, 0).0 == Some(m)
  {
    FiledLevelIsFirstBusy(kinds, m);
    TakeFirstIsFirstBusy(FileTask(EmptyQueues(kinds), m), 0);
  }

  /** cancel_file_operations' filter: a message stays unless its source path is listed. */
  function Unlisted(paths: set<string>): TaskMessage -> bool
  {
    (m: TaskMessage) => match m.body
      case MovieDataProgramTask(p, _) => p !in paths
      case MutagenTask(p, _) => p !in paths
      case _ => true
  }

  /** cancel_file_operations on states: the Mutagen FIFO and then the movie-data FIFO are filtered. */
  function CancelIn(sts: seq<LevelState>, paths: set<string>): seq<LevelState>
    requires QueueInv(sts)
  {
    var i := LevelIndex(10);
    sts[i := FilterIn(FilterIn(sts[i], Unlisted(paths), Mutagen), Unlisted(paths), MovieData)]
  }

  /** The messages waiting at one level, in no particular order. */
  ghost function Held(s: LevelState): set<TaskMessage>
  {
    set c, j | 0 <= c < |s.fifos| && 0 <= j < |s.fifos[c]| :: s.fifos[c][j]
  }

  lemma HeldAt(s: LevelState, c: nat, m: TaskMessage)
    requires c < |s.fifos| && m in s.fifos[c]
    ensures m in Held(s)
  {
    var j :| 0 <= j < |s.fifos[c]| && s.fifos[c][j] == m;
  }

  /** filter_messages drops exactly the messages of `cls` that `keep` rejects. */
  lemma FilterInHeld(priority: int, s: LevelState, keep: TaskMessage -> bool, cls: Kind, m: TaskMessage)
    requires LevelInv(priority, s) && cls in s.classes
    ensures m in Held(FilterIn(s, keep, cls)) <==> m in Held(s) && (KindOf(m) == cls ==> keep(m))
  {
    var s' := FilterIn(s, keep, cls);
    var c0 := IndexOf(s.classes, cls);
    if m in Held(s') {
      var c, j :| 0 <= c < |s'.fifos| && 0 <= j < |s'.fifos[c]| && s'.fifos[c][j] == m;
      assert m in s'.fifos[c];
      if c == c0 {
        KeepMembers(s.fifos[c], keep, m);
      } else {
        var jj :| 0 <= jj < |s.fifos[c]| && s.fifos[c][jj] == m;
        assert KindOf(m) == s.classes[c];
      }
      HeldAt(s, c, m);
    }
    if m in Held(s) && (KindOf(m) == cls ==> keep(m)) {
      var c, j :| 0 <= c < |s.fifos| && 0 <= j < |s.fifos[c]| && s.fifos[c][j] == m;
      assert m in s.fifos[c];
      if c == c0 {
        KeepMembers(s.fifos[c], keep, m);
      }
      HeldAt(s', c, m);
    }
  }

  /**
   * cancel_file_operations drops exactly the Mutagen and movie-data tasks
   * whose source path is listed; every other queued message stays where it was.
   */
  lemma CancelDropsExactly(sts: seq<LevelState>, paths: set<string>, i: nat, m: TaskMessage)
    requires QueueInv(sts) && i < |sts|
    ensures m in Held(CancelIn(sts, paths)[i]) <==> m in Held(sts[i]) && Unlisted(paths)(m)
  {
    var L := LevelIndex(10);
    if i == L {
      var s1 := FilterIn(sts[L], Unlisted(paths), Mutagen);
      FilterInHeld(10, sts[L], Unlisted(paths), Mutagen, m);
      FilterKeepsLevelInv(10, sts[L], Unlisted(paths), Mutagen);
      FilterInHeld(10, s1, Unlisted(paths), MovieData, m);
    } else if m in Held(sts[i]) {
      var c, j :| 0 <= c < |sts[i].fifos| && 0 <= j < |sts[i].fifos[c]| && sts[i].fifos[c][j] == m;
      assert LevelInv(Priorities[i], sts[i]);
      assert Priority(KindOf(m)) == Priorities[i];
    }
  }

  /** What get_next_task hands a worker thread. */
  datatype Next =
    | Quit                   // None: the thread should end
    | Run(task: TaskMessage) // the (handler, message) pair to run
    | Wait                   // nothing queued: the thread blocks on the condition

  /** WorkerTaskQueue: a _SinglePriorityQueue per priority and the shutdown flag. */
  class WorkerTaskQueue {
    var shouldQuit: bool
    /** queues_by_priority, highest priority first; queue_map is LevelIndex. */
    const levels: seq<SinglePriorityQueue>

    ghost function States(): seq<LevelState>
      reads this, levels
    {
      seq(|levels|, i reads levels requires 0 <= i < |levels| => levels[i].State())
    }

    ghost predicate Valid()
      reads this, levels
    {
      |levels| == |Priorities| &&
      (forall i, j :: 0 <= i < j < |levels| ==> levels[i] != levels[j]) &&
      (forall i :: 0 <= i < |levels| ==> levels[i].priority == Priorities[i]) &&
      QueueInv(States())
    }

    /** WorkerTaskQueue(): an empty queue per priority; `kinds` is the order all_subclasses lists the classes in. */
    constructor(kinds: seq<Kind>)
      requires EnumeratesKinds(kinds)
      ensures !shouldQuit && fresh(levels) && |levels| == |Priorities|
      ensures States() == EmptyQueues(kinds)
      ensures Valid()
    {
      shouldQuit := false;
      var q0 := new SinglePriorityQueue(20, kinds);
      var q1 := new SinglePriorityQueue(10, kinds);
      var q2 := new SinglePriorityQueue(0, kinds);
      levels := [q0, q1, q2];
      new;
      assert States() == [q0.State(), q1.State(), q2.State()];
      EmptyQueuesInv(kinds);
    }

    /** add_task: the message is filed at its priority. */
    method AddTask(m: TaskMessage)
      requires Valid()
      modifies levels
      ensures States() == FileTask(old(States()), m)
      ensures Valid()
    {
      var i := LevelIndex(Priority(KindOf(m)));
      ghost var before := States();
      assert LevelInv(Priorities[i], before[i]);
      var ok := levels[i].AddTask(m);
      assert States() == before[i := levels[i].State()];
    }

    /** One step of _get_next_task's scan: get_next_task on the level at `i`. */
    method TakeAt(i: nat) returns (t: Option<TaskMessage>)
      requires Valid() && i < |levels|
      modifies levels[i]
      ensures var r := TakeFrom(old(States())[i]); t == r.0 && States() == old(States())[i := r.1]
      ensures Valid()
    {
      ghost var before := States();
      TakeKeepsLevelInv(Priorities[i], before[i]);
      t := levels[i].GetNextTask();
      assert States() == before[i := levels[i].State()];
    }

    /** _get_next_task: scans the levels from the highest priority down. */
    method TakeNext() returns (t: Option<TaskMessage>)
      requires Valid()
      modifies levels
      ensures (t, States()) == TakeFirst(old(States()), 0)
      ensures Valid()
    {
      var i := 0;
      while i < |levels|
        invariant 0 <= i <= |levels|
        invariant Valid()
        invariant TakeFirst(States(), i) == TakeFirst(old(States()), 0)
      {
        var r := TakeAt(i);
        if r.Some? {
          return r;
        }
        i := i + 1;
      }
      t := None;
    }

    /** get_next_task: None once shut down, else the next task, else the caller must wait. */
    method GetNextTask() returns (n: Next)
      requires Valid()
      modifies levels
      ensures old(shouldQuit) ==> n == Quit && States() == old(States())
      ensures !old(shouldQuit) ==> var r := TakeFirst(old(States()), 0);
        States() == r.1 && (if r.0.Some? then n == Run(r.0.value) else n == Wait)
      ensures Valid()
    {
      if shouldQuit {
        return Quit;
      }
      var t := TakeNext();
      n := if t.Some? then Run(t.value) else Wait;
    }

    /** filter_messages on the level at `i`, for a class of that level. */
    method FilterAt(i: nat, keep: TaskMessage -> bool, cls: Kind)
      requires Valid() && i < |levels| && Priority(cls) == Priorities[i]
      modifies levels[i]
      ensures States() == old(States())[i := FilterIn(old(States())[i], keep, cls)]
      ensures Valid()
    {
      ghost var before := States();
      assert LevelInv(Priorities[i], before[i]);
      FilterKeepsLevelInv(Priorities[i], before[i], keep, cls);
      var ok := levels[i].FilterMessages(keep, cls);
      assert States() == before[i := levels[i].State()];
    }

    /** cancel_file_operations: drops the Mutagen and movie-data tasks for the listed paths. */
    method CancelFileOperations(paths: set<string>)
      requires Valid()
      modifies levels
      ensures States() == CancelIn(old(States()), paths)
      ensures Valid()
    {
      var i := LevelIndex(10);
      FilterAt(i, Unlisted(paths), Mutagen);
      FilterAt(i, Unlisted(paths), MovieData);
    }

    /** shutdown: every later get_next_task answers Quit. */
    method Shutdown()
      modifies this`shouldQuit
      ensures shouldQuit
    {
      shouldQuit := true;
    }
  }

  // ------------------------------------------------------------ the worker's message handler

  /** A message reaching WorkerProcessHandler.call_handler: a task, or any other message. */
  datatype Message = Task(task: TaskMessage) | Other(name: string)

  /** Where call_handler sends a message. */
  datatype Route =
    | RunNow      // handle_task at once: CancelFileOperations
    | MainThread  // main_thread_tasks, run between incoming messages
    | Queued      // the WorkerTaskQueue, for the worker threads
    | Direct      // not a task: the handler method is called directly

  /** call_handler's dispatch on the message's class. */
  function RouteOf(msg: Message, supportsAlarm: bool): (r: Route)
    ensures r == RunNow <==> msg.Task? && KindOf(msg.task) == Cancel
    ensures r == MainThread <==>
      msg.Task? && (KindOf(msg.task) == MovieData || (KindOf(msg.task) == Mutagen && supportsAlarm))
    ensures r == Queued <==>
      msg.Task? && (KindOf(msg.task) == Feedparser || (KindOf(msg.task) == Mutagen && !supportsAlarm))
    ensures r == Direct <==> msg.Other?
  {
    match msg
    case Other(_) => Direct
    case Task(t) =>
      match KindOf(t)
      case Cancel => RunNow
      case MovieData => MainThread
      case Mutagen => if supportsAlarm then MainThread else Queued
      case Feedparser => Queued
  }

  /** Only file tasks ever wait in main_thread_tasks. */
  lemma MainThreadHoldsFileTasks(msg: Message, supportsAlarm: bool)
    requires RouteOf(msg, supportsAlarm) == MainThread
    ensures KindOf(msg.task) == MovieData || KindOf(msg.task) == Mutagen
  {
  }

  function PathSet(paths: seq<string>): set<string>
  {
    set p | p in paths
  }

  /**
   * The main-thread half of handle_cancel_file_operations as written: it
   * reads `source_path` off each queued (method, message) pair, which a
   * tuple does not have, so any queued pair raises AttributeError (None)
   * and the deque is left as it was.
   */
  function CancelMainThreadAsWritten(tasks: seq<TaskMessage>, paths: set<string>): Option<seq<TaskMessage>>
  {
    if tasks == [] then Some([]) else None
  }

  /** The main-thread half of handle_cancel_file_operations as intended: the listed paths' tasks leave the deque. */
  function CancelMainThread(tasks: seq<TaskMessage>, paths: set<string>): seq<TaskMessage>
  {
    Keep(tasks, Unlisted(paths))
  }

  /** As written, cancelling fails on any waiting movie-data task, even one for another path, and cancels nothing. */
  lemma CancelMainThreadAsWrittenFails()
    ensures var t := TaskMessage(0, MovieDataProgramTask("a.avi", "shots"));
      CancelMainThreadAsWritten([t], {"b.avi"}).None? &&
      CancelMainThreadAsWritten([t], {"a.avi"}).None? &&
      CancelMainThread([t], {"b.avi"}) == [t] &&
      CancelMainThread([t], {"a.avi"}) == []
  {
    var t := TaskMessage(0, MovieDataProgramTask("a.avi", "shots"));
    assert [t][..0] == [];
  }

  /** As intended, exactly the listed paths' file tasks leave main_thread_tasks, and the rest keep their order. */
  lemma CancelMainThreadExactly(tasks: seq<TaskMessage>, paths: set<string>, m: TaskMessage)
    ensures m in CancelMainThread(tasks, paths) <==>
      m in tasks && !((KindOf(m) == MovieData || KindOf(m) == Mutagen) && m.body.sourcePath in paths)
  {
    KeepMembers(tasks, Unlisted(paths), m);
  }

  // ------------------------------------------------------------ draining the main-thread tasks

  /** What get_task_from_queue does on the main thread: a MovieDataTaskStatus sent, or a task handled. */
  datatype MainThreadEvent = ReportStatus(taskId: Option<nat>) | Ran(task: TaskMessage, withAlarm: bool)

  /** One task taken off main_thread_tasks: a MutagenTask runs under the alarm, anything else is announced first. */
  function StepEvents(t: TaskMessage): seq<MainThreadEvent>
  {
    if KindOf(t) == Mutagen then [Ran(t, true)] else [ReportStatus(Some(t.taskId)), Ran(t, false)]
  }

  /** The events of handling `ts` in turn. */
  function DrainEvents(ts: seq<TaskMessage>): seq<MainThreadEvent>
  {
    if ts == [] then [] else DrainEvents(ts[..|ts| - 1]) + StepEvents(ts[|ts| - 1])
  }

  /** ran_movie_data after handling `ts`: some task other than a MutagenTask was among them. */
  predicate RanMovieData(ts: seq<TaskMessage>)
  {
    ts != [] && (RanMovieData(ts[..|ts| - 1]) || KindOf(ts[|ts| - 1]) != Mutagen)
  }

  /** The tasks handled, in the order the events handle them. */
  function RanTasks(es: seq<MainThreadEvent>): seq<TaskMessage>
  {
    if es == [] then []
    else RanTasks(es[..|es| - 1]) + (if es[|es| - 1].Ran? then [es[|es| - 1].task] else [])
  }

  lemma {:induction false} RanTasksConcat(a: seq<MainThreadEvent>, b: seq<MainThreadEvent>)
    ensures RanTasks(a + b) == RanTasks(a) + RanTasks(b)
    decreases |b|
  {
    if b != [] {
      var b' := b[..|b| - 1];
      assert (a + b)[..|a + b| - 1] == a + b';
      RanTasksConcat(a, b');
    } else {
      assert a + b == a;
    }
  }

  lemma StepRunsOnce(t: TaskMessage)
    ensures RanTasks(StepEvents(t)) == [t]
  {
    if KindOf(t) == Mutagen {
      assert RanTasks([Ran(t, true)]) == RanTasks([]) + [t];
    } else {
      var e := [ReportStatus(Some(t.taskId))];
      assert RanTasks(e) == RanTasks([]) + [] by { assert e[..0] == []; }
      assert [ReportStatus(Some(t.taskId)), Ran(t, false)][..1] == e;
    }
  }

  /** Draining handles every task exactly once, in the order of the deque. */
  lemma {:induction false} DrainRunsEachOnce(ts: seq<TaskMessage>)
    ensures RanTasks(DrainEvents(ts)) == ts
  {
    if ts != [] {
      var init, t := ts[..|ts| - 1], ts[|ts| - 1];
      calc {
        RanTasks(DrainEvents(ts));
        RanTasks(DrainEvents(init) + StepEvents(t));
        { RanTasksConcat(DrainEvents(init), StepEvents(t)); }
        RanTasks(DrainEvents(init)) + RanTasks(StepEvents(t));
        { DrainRunsEachOnce(init); StepRunsOnce(t); }
        init + [t];
        ts;
      }
    }
  }

  /** A MovieDataTaskStatus names exactly the tasks other than MutagenTasks, and a task runs under the alarm exactly when it is a MutagenTask. */
  lemma {:induction false} DrainReports(ts: seq<TaskMessage>, t: TaskMessage, id: nat, alarm: bool)
    ensures ReportStatus(Some(id)) in DrainEvents(ts) <==>
      exists i :: 0 <= i < |ts| && KindOf(ts[i]) != Mutagen && ts[i].taskId == id
    ensures Ran(t, alarm) in DrainEvents(ts) <==> t in ts && (alarm <==> KindOf(t) == Mutagen)
    ensures ReportStatus(None) !in DrainEvents(ts)
  {
    if ts != [] {
      var init := ts[..|ts| - 1];
      var last := ts[|ts| - 1];
      DrainReports(init, t, id, alarm);
      assert DrainEvents(ts) == DrainEvents(init) + StepEvents(last);
      assert forall i :: 0 <= i < |init| ==> ts[i] == init[i];
      assert ts == init + [last];
      if ReportStatus(Some(id)) in StepEvents(last) {
        assert KindOf(ts[|ts| - 1]) != Mutagen && ts[|ts| - 1].taskId == id;
      }
      if exists i :: 0 <= i < |ts| && KindOf(ts[i]) != Mutagen && ts[i].taskId == id {
        var i :| 0 <= i < |ts| && KindOf(ts[i]) != Mutagen && ts[i].taskId == id;
        if i < |init| {
          assert KindOf(init[i]) != Mutagen && init[i].taskId == id;
        }
      }
    }
  }

  /** ran_movie_data holds exactly when some drained task was not a MutagenTask. */
  lemma {:induction false} RanMovieDataIff(ts: seq<TaskMessage>)
    ensures RanMovieData(ts) <==> exists i :: 0 <= i < |ts| && KindOf(ts[i]) != Mutagen
  {
    if ts != [] {
      var init := ts[..|ts| - 1];
      RanMovieDataIff(init);
      assert forall i :: 0 <= i < |init| ==> ts[i] == init[i];
      if exists i :: 0 <= i < |ts| && KindOf(ts[i]) != Mutagen {
        var i :| 0 <= i < |ts| && KindOf(ts[i]) != Mutagen;
        if i < |init| {
          assert KindOf(init[i]) != Mutagen;
        }
      }
    }
  }

  /** WorkerProcessHandler: the task queue, the tasks kept for the main thread, and whether alarms work. */
  class WorkerProcessHandler {
    const taskQueue: WorkerTaskQueue
    /** main_thread_tasks, oldest first. */
    var mainThreadTasks: seq<TaskMessage>
    /** util.supports_alarm(), read once at start-up. */
    const supportsAlarm: bool

    ghost predicate Valid()
      reads this, taskQueue, taskQueue.levels
    {
      taskQueue.Valid()
    }

    constructor(kinds: seq<Kind>, supportsAlarm: bool)
      requires EnumeratesKinds(kinds)
      ensures this.supportsAlarm == supportsAlarm && mainThreadTasks == []
      ensures fresh(taskQueue) && fresh(taskQueue.levels)
      ensures taskQueue.States() == EmptyQueues(kinds) && !taskQueue.shouldQuit
      ensures Valid()
    {
      this.supportsAlarm := supportsAlarm;
      mainThreadTasks := [];
      taskQueue := new WorkerTaskQueue(kinds);
    }

    /** handle_cancel_file_operations, with the main-thread deque filtered by each message's source path. */
    method HandleCancelFileOperations(paths: seq<string>)
      requires Valid()
      modifies this`mainThreadTasks, taskQueue.levels
      ensures taskQueue.States() == CancelIn(old(taskQueue.States()), PathSet(paths))
      ensures mainThreadTasks == CancelMainThread(old(mainThreadTasks), PathSet(paths))
      ensures Valid()
    {
      taskQueue.CancelFileOperations(PathSet(paths));
      var kept := [];
      var i := 0;
      while i < |mainThreadTasks|
        invariant 0 <= i <= |mainThreadTasks|
        invariant kept == Keep(mainThreadTasks[..i], Unlisted(PathSet(paths)))
      {
        assert mainThreadTasks[..i + 1][..i] == mainThreadTasks[..i];
        if Unlisted(PathSet(paths))(mainThreadTasks[i]) {
          kept := kept + [mainThreadTasks[i]];
        }
        i := i + 1;
      }
      assert mainThreadTasks[..i] == mainThreadTasks;
      mainThreadTasks := kept;
    }

    /** call_handler: files, defers or runs a message according to its class. */
    method CallHandler(msg: Message) returns (r: Route)
      requires Valid()
      modifies this`mainThreadTasks, taskQueue.levels
      ensures r == RouteOf(msg, supportsAlarm)
      ensures r == RunNow ==>
        taskQueue.States() == CancelIn(old(taskQueue.States()), PathSet(msg.task.body.paths)) &&
        mainThreadTasks == CancelMainThread(old(mainThreadTasks), PathSet(msg.task.body.paths))
      ensures r == MainThread ==>
        taskQueue.States() == old(taskQueue.States()) && mainThreadTasks == old(mainThreadTasks) + [msg.task]
      ensures r == Queued ==>
        taskQueue.States() == FileTask(old(taskQueue.States()), msg.task) && mainThreadTasks == old(mainThreadTasks)
      ensures r == Direct ==>
        taskQueue.States() == old(taskQueue.States()) && mainThreadTasks == old(mainThreadTasks)
      ensures Valid()
    {
      r := RouteOf(msg, supportsAlarm);
      match r
      case RunNow =>
        HandleCancelFileOperations(msg.task.body.paths);
      case MainThread =>
        mainThreadTasks := mainThreadTasks + [msg.task];
      case Queued =>
        taskQueue.AddTask(msg.task);
      case Direct =>
    }

    /**
     * The draining loop of get_task_from_queue. The incoming message queue
     * answers empty() with true for the first `emptyFor` tests and false
     * after that; the blocking queue.get() that follows is left to the caller.
     */
    method GetTaskFromQueue(emptyFor: nat) returns (events: seq<MainThreadEvent>)
      modifies this`mainThreadTasks
      ensures var n := if emptyFor < |old(mainThreadTasks)| then emptyFor else |old(mainThreadTasks)|;
        var ran := old(mainThreadTasks)[..n];
        mainThreadTasks == old(mainThreadTasks)[n..] &&
        events == DrainEvents(ran) + (if RanMovieData(ran) then [ReportStatus(None)] else [])
    {
      ghost var orig := mainThreadTasks;
      events := [];
      var ranMovieData := false;
      var tests: nat := 0;
      while tests < emptyFor && mainThreadTasks != []
        invariant tests <= emptyFor && tests <= |orig| && mainThreadTasks == orig[tests..]
        invariant events == DrainEvents(orig[..tests]) && ranMovieData == RanMovieData(orig[..tests])
        decreases |mainThreadTasks|
      {
        var msg := mainThreadTasks[0];
        mainThreadTasks := mainThreadTasks[1..];
        assert orig[..tests + 1][..tests] == orig[..tests] && orig[tests] == msg;
        tests := tests + 1;
        if KindOf(msg) == Mutagen {
          events := events + [Ran(msg, true)];
          continue;
        }
        events := events + [ReportStatus(Some(msg.taskId))];
        ranMovieData := true;
        events := events + [Ran(msg, false)];
      }
      if ranMovieData {
        events := events + [ReportStatus(None)];
      }
    }
  }

  // ------------------------------------------------------------ the main process's pending tasks

  /** A task's result as the worker reports it: a return value, or the exception raised. */
  datatype Outcome = Returned(value: string) | Raised(error: string)

  /** TaskResult: the task's id and its outcome. */
  datatype TaskResult = TaskResult(taskId: nat, result: Outcome)

  /** A callback or errback, by identity. */
  type CallbackId = nat

  /** An entry of tasks_in_progress: the message, its callback and its errback. */
  datatype Pending = Pending(msg: TaskMessage, callback: CallbackId, errback: CallbackId)

  datatype Role = Callback | Errback

  /** The one call process_result makes: which callback, with which message and result. */
  datatype Call = Call(role: Role, fn: CallbackId, msg: TaskMessage, result: Outcome)

  /** process_result's decision, for a pending entry and a reply. */
  function Dispatch(p: Pending, reply: TaskResult): (c: Call)
    ensures c.msg == p.msg && c.result == reply.result
    ensures c.role == Errback <==> reply.result.Raised?
    ensures c.fn == (if c.role == Errback then p.errback else p.callback)
  {
    if reply.result.Raised? then Call(Errback, p.errback, p.msg, reply.result)
    else Call(Callback, p.callback, p.msg, reply.result)
  }

  /** MiroTaskQueue: the callbacks waiting for each task the worker has not answered yet. */
  class MiroTaskQueue {
    /** tasks_in_progress, by task id. */
    var tasksInProgress: map<nat, Pending>

    ghost predicate Valid()
      reads this
    {
      forall id :: id in tasksInProgress ==> tasksInProgress[id].msg.taskId == id
    }

    constructor()
      ensures tasksInProgress == map[] && Valid()
    {
      tasksInProgress := map[];
    }

    /** reset: forgets every pending task. */
    method Reset()
      modifies this
      ensures tasksInProgress == map[] && Valid()
    {
      tasksInProgress := map[];
    }

    /** add_task: records the callbacks; the message goes to the worker only while it runs. */
    method AddTask(msg: TaskMessage, callback: CallbackId, errback: CallbackId, isRunning: bool) returns (sent: bool)
      requires Valid()
      modifies this
      ensures tasksInProgress == old(tasksInProgress)[msg.taskId := Pending(msg, callback, errback)]
      ensures sent == isRunning
      ensures Valid()
    {
      tasksInProgress := tasksInProgress[msg.taskId := Pending(msg, callback, errback)];
      sent := isRunning;
    }

    /** process_result: pops the entry and makes exactly one call; KeyError (None) for an unknown id. */
    method ProcessResult(reply: TaskResult) returns (call: Option<Call>)
      requires Valid()
      modifies this
      ensures reply.taskId !in old(tasksInProgress) ==> call.None? && tasksInProgress == old(tasksInProgress)
      ensures reply.taskId in old(tasksInProgress) ==>
        call == Some(Dispatch(old(tasksInProgress)[reply.taskId], reply)) &&
        tasksInProgress == old(tasksInProgress) - {reply.taskId}
      ensures Valid()
    {
      if reply.taskId !in tasksInProgress {
        return None;
      }
      var p := tasksInProgress[reply.taskId];
      tasksInProgress := tasksInProgress - {reply.taskId};
      call := Some(Dispatch(p, reply));
    }

    /** run_pending_tasks: every pending message is sent again, once each, in no particular order. */
    method RunPendingTasks() returns (sent: seq<TaskMessage>)
      requires Valid()
      ensures forall i :: 0 <= i < |sent| ==>
        sent[i].taskId in tasksInProgress && tasksInProgress[sent[i].taskId].msg == sent[i]
      ensures forall id :: id in tasksInProgress ==> tasksInProgress[id].msg in sent
      ensures forall i, j :: 0 <= i < j < |sent| ==> sent[i] != sent[j]
    {
      var todo := tasksInProgress.Keys;
      sent := [];
      while todo != {}
        invariant todo <= tasksInProgress.Keys
        invariant forall i :: 0 <= i < |sent| ==>
          sent[i].taskId in tasksInProgress && sent[i].taskId !in todo && tasksInProgress[sent[i].taskId].msg == sent[i]
        invariant forall id :: id in tasksInProgress && id !in todo ==> tasksInProgress[id].msg in sent
        invariant forall i, j :: 0 <= i < j < |sent| ==> sent[i].taskId != sent[j].taskId
        decreases |todo|
      {
        var id := Pick(todo);
        sent := sent + [tasksInProgress[id].msg];
        todo := todo - {id};
      }
    }
  }
}
