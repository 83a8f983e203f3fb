/**
 * The counting allocator as a state machine over the atomic steps of any
 * number of threads.
 */
module CountingAllocator {
  import opened Sums

  const USIZE: nat := 0x1_0000_0000_0000_0000
  const USIZE_MAX: nat := USIZE - 1

  type Thread = nat
  type Block = nat

  /** What a charge is for once it is allowed. */
  datatype Purpose = NewBlock | Grow(block: Block)

  /** Where a thread stands inside an allocator call. */
  datatype Pc =
    | Idle
    /** Added `size` to the live total and saw `live`; the limit is yet to be read. */
    | Added(size: nat, live: nat, purpose: Purpose)
    /** Passed the check against `limit`; the system allocation is yet to be made. */
    | Charged(size: nat, live: nat, limit: nat, purpose: Purpose)
    /** Inside `set_hard_limit`, holding the live total it read. */
    | Arming(live: nat, budget: nat)
    /** As above, having lowered the baseline. */
    | Armed(live: nat, baseline: nat, budget: nat)
    /** Refused, by the limit or by the system; `lifted` once it has lifted the limit to report why. */
    | Refused(size: nat, purpose: Purpose, lifted: bool)

  /** `ending` is set once some thread was refused, `dead` once the process is gone. */
  datatype State = State(
    live: nat,
    hardLimit: nat,
    baseline: nat,
    blocks: map<Block, nat>,
    threads: map<Thread, Pc>,
    ending: bool,
    dead: bool)

  /** The bytes a thread has added for a block that does not hold them yet. */
  function InFlight(t: Thread, pc: Pc): nat
  {
    match pc
    case Added(size, _, _) => size
    case Charged(size, _, _, _) => size
    case Refused(size, _, _) => size
    case _ => 0
  }

  function Size(b: Block, size: nat): nat
  {
    size
  }

  /** Sizes of live blocks and charges in flight. */
  ghost function Held(s: State): nat
  {
    Sum(s.blocks, Size) + Sum(s.threads, InFlight)
  }

  datatype Action =
    /** The `fetch_add` of a charge. */
    | Add(t: Thread, size: nat, purpose: Purpose)
    /** The load of the hard limit, and the comparison. */
    | Check(t: Thread)
    /** The system allocator's answer; `id` names the new block. */
    | Allocate(t: Thread, id: Block, refused: bool)
    /** The `fetch_sub` of a `dealloc`. */
    | Free(t: Thread, block: Block)
    /** The `fetch_sub` of a shrinking `realloc`, and the system's answer. */
    | Shrink(t: Thread, block: Block, newSize: nat, refused: bool)
    /** A refused thread lifts the limit, so that its report can allocate, and then ends the process. */
    | Lift(t: Thread)
    | Exit(t: Thread)
    /** `set_hard_limit`: load, `fetch_min`, store; `budget` is the usize maximum where no limit is asked for. */
    | ReadLive(t: Thread, budget: nat)
    | LowerBaseline(t: Thread)
    | StoreLimit(t: Thread)

  function PcOf(s: State, t: Thread): Pc
  {
    if t in s.threads then s.threads[t] else Idle
  }

  function SaturatingAdd(a: nat, b: nat): nat
  {
    if a + b > USIZE_MAX then USIZE_MAX else a + b
  }

  /** Whether a thread can take an action now; a block being grown is its caller's alone. */
  predicate Enabled(s: State, a: Action)
  {
    && !s.dead
    && match a
       case Add(t, size, purpose) =>
         PcOf(s, t) == Idle && size <= USIZE_MAX && (purpose.Grow? ==> Usable(s, purpose.block))
       case Check(t) => PcOf(s, t).Added?
       case Allocate(t, id, _) => PcOf(s, t).Charged? && (PcOf(s, t).purpose.NewBlock? ==> id !in s.blocks)
       case Free(t, block) => PcOf(s, t) == Idle && Usable(s, block)
       case Shrink(t, block, newSize, _) => PcOf(s, t) == Idle && Usable(s, block) && newSize < s.blocks[block]
       case Lift(t) => PcOf(s, t).Refused? && !PcOf(s, t).lifted
       case Exit(t) => PcOf(s, t).Refused? && PcOf(s, t).lifted
       case ReadLive(t, budget) => PcOf(s, t) == Idle
       case LowerBaseline(t) => PcOf(s, t).Arming?
       case StoreLimit(t) => PcOf(s, t).Armed?
  }

  /** A block no thread is in the middle of growing. */
  predicate Usable(s: State, b: Block)
  {
    b in s.blocks && forall t | t in s.threads :: !Growing(s.threads[t], b)
  }

  predicate Growing(pc: Pc, b: Block)
  {
    (pc.Added? || pc.Charged? || pc.Refused?) && pc.purpose == Grow(b)
  }

  function Min(a: nat, b: nat): nat
  {
    if a < b then a else b
  }

  function WithPc(s: State, t: Thread, pc: Pc): State
  {
    s.(threads := s.threads[t := pc])
  }

  /** One atomic step.  Counter arithmetic wraps at the machine's word, as `fetch_add` and `fetch_sub` do. */
  function Step(s: State, a: Action): State
    requires Enabled(s, a)
  {
    match a
    case Add(t, size, purpose) =>
      WithPc(s, t, Added(size, SaturatingAdd(s.live, size), purpose)).(live := (s.live + size) % USIZE)
    case Check(t) =>
      var pc := PcOf(s, t);
      if pc.live > s.hardLimit then Refuse(s, t, pc.size, pc.purpose)
      else WithPc(s, t, Charged(pc.size, pc.live, s.hardLimit, pc.purpose))
    case Allocate(t, id, refused) =>
      if refused then Refuse(s, t, PcOf(s, t).size, PcOf(s, t).purpose) else Settle(s, t, id)
    case Free(t, block) =>
      s.(blocks := s.blocks - {block}, live := (s.live - s.blocks[block]) % USIZE)
    case Shrink(t, block, newSize, refused) =>
      var shrunk := s.(blocks := s.blocks[block := newSize], live := (s.live - (s.blocks[block] - newSize)) % USIZE);
      if refused then Refuse(shrunk, t, 0, Grow(block)) else shrunk
    case Lift(t) =>
      var pc := PcOf(s, t);
      WithPc(s, t, Refused(pc.size, pc.purpose, true)).(hardLimit := USIZE_MAX)
    case Exit(_) => s.(dead := true)
    case ReadLive(t, budget) =>
      if s.live == 0 then s else WithPc(s, t, Arming(s.live, budget))
    case LowerBaseline(t) =>
      var pc := PcOf(s, t);
      WithPc(s, t, Armed(pc.live, Min(s.baseline, pc.live), pc.budget)).(baseline := Min(s.baseline, pc.live))
    case StoreLimit(t) =>
      var pc := PcOf(s, t);
      WithPc(s, t, Idle).(hardLimit := if pc.budget == USIZE_MAX then USIZE_MAX else SaturatingAdd(pc.baseline, pc.budget))
  }

  /** A refused thread never comes back. */
  function Refuse(s: State, t: Thread, size: nat, purpose: Purpose): State
  {
    WithPc(s, t, Refused(size, purpose, false)).(ending := true)
  }

  /** A system allocation that succeeds moves the charge into its block. */
  function Settle(s: State, t: Thread, id: Block): State
    requires PcOf(s, t).Charged?
  {
    var pc := PcOf(s, t);
    var (block, size) := match pc.purpose
      case NewBlock => (id, pc.size)
      case Grow(b) => (b, (if b in s.blocks then s.blocks[b] else 0) + pc.size);
    WithPc(s, t, Idle).(blocks := s.blocks[block := size])
  }

  const START: State := State(0, USIZE_MAX, USIZE_MAX, map[], map[], false, false)

  /** The states of a run. */
  ghost predicate IsRun(states: seq<State>, actions: seq<Action>)
  {
    && |states| == |actions| + 1 && states[0] == START
    && forall i :: 0 <= i < |actions| ==> Enabled(states[i], actions[i]) && states[i + 1] == Step(states[i], actions[i])
  }

  // ---- what every step keeps -------------------------------------------------

  /** The counter is the bytes held, up to wrap-around. */
  ghost predicate Counted(s: State)
  {
    s.live == Held(s) % USIZE
  }

  /** A block being grown exists and has one grower. */
  ghost predicate Exclusive(s: State)
  {
    && (forall t, b :: t in s.threads && Growing(s.threads[t], b) ==> b in s.blocks)
    && (forall t, u, b :: t in s.threads && u in s.threads && Growing(s.threads[t], b) && Growing(s.threads[u], b) ==> t == u)
  }

  /** Every charge that passed left a total within the limit it read. */
  ghost predicate PassedWithin(s: State)
  {
    forall t :: t in s.threads && s.threads[t].Charged? ==> s.threads[t].live <= s.threads[t].limit
  }

  /** The baseline a thread will build its limit on is never below the current one, nor above the live total it read. */
  ghost predicate BaselineLow(s: State)
  {
    forall t :: t in s.threads && s.threads[t].Armed? ==> s.baseline <= s.threads[t].baseline <= s.threads[t].live
  }

  /** A refused thread means the process is ending. */
  ghost predicate RefusedEnds(s: State)
  {
    forall t :: t in s.threads && s.threads[t].Refused? ==> s.ending
  }

  lemma SetPc(s: State, t: Thread, pc: Pc)
    ensures Sum(s.threads[t := pc], InFlight) == Sum(s.threads, InFlight) - InFlight(t, PcOf(s, t)) + InFlight(t, pc)
    ensures Sum(s.threads, InFlight) >= InFlight(t, PcOf(s, t))
  {
    SumUpdate(s.threads, InFlight, t, pc);
  }

  /** How a step changes the bytes held: adds and refunds as its counter does, everything else not at all. */
  lemma HeldStep(s: State, a: Action)
    requires Enabled(s, a) && Exclusive(s)
    ensures Held(Step(s, a)) ==
            match a
            case Add(_, size, _) => Held(s) + size
            case Free(_, b) => Held(s) - s.blocks[b]
            case Shrink(_, b, newSize, _) => Held(s) - (s.blocks[b] - newSize)
            case _ => Held(s)
  {
    hide Exclusive;
    match a {
      case Add(t, size, purpose) => SetPc(s, t, Added(size, SaturatingAdd(s.live, size), purpose));
      case Check(t) =>
        var pc := PcOf(s, t);
        SetPc(s, t, Charged(pc.size, pc.live, s.hardLimit, pc.purpose));
        SetPc(s, t, Refused(pc.size, pc.purpose, false));
      case Allocate(t, id, refused) => SettleHolds(s, t, id, refused);
      case Free(t, b) => SumRemove(s.blocks, Size, b);
      case Shrink(t, b, newSize, _) =>
        SumUpdate(s.blocks, Size, b, newSize);
        SetPc(s, t, Refused(0, Grow(b), false));
      case Lift(t) =>
        var pc := PcOf(s, t);
        SetPc(s, t, Refused(pc.size, pc.purpose, true));
      case Exit(_) =>
      case ReadLive(t, budget) => SetPc(s, t, Arming(s.live, budget));
      case LowerBaseline(t) =>
        var pc := PcOf(s, t);
        SetPc(s, t, Armed(pc.live, Min(s.baseline, pc.live), pc.budget));
      case StoreLimit(t) => SetPc(s, t, Idle);
    }
  }

  lemma SettleHolds(s: State, t: Thread, id: Block, refused: bool)
    requires Enabled(s, Allocate(t, id, refused)) && Exclusive(s)
    ensures Held(Step(s, Allocate(t, id, refused))) == Held(s)
  {
    hide Usable, Exclusive;
    var pc := PcOf(s, t);
    if refused {
      SetPc(s, t, Refused(pc.size, pc.purpose, false));
    } else {
      SetPc(s, t, Idle);
      match pc.purpose {
        case NewBlock => SumUpdate(s.blocks, Size, id, pc.size);
        case Grow(b) =>
          GrownExists(s, t, b);
          var grown: nat := s.blocks[b] + pc.size;
          SumUpdate<Block, nat>(s.blocks, Size, b, grown);
      }
    }
  }

  lemma GrownExists(s: State, t: Thread, b: Block)
    requires Exclusive(s) && t in s.threads && Growing(s.threads[t], b)
    ensures b in s.blocks
  {
  }

  lemma ExclusiveStep(s: State, a: Action)
    requires Enabled(s, a) && Exclusive(s)
    ensures Exclusive(Step(s, a))
  {
    hide Held;
  }

  lemma WrapAdd(held: nat, n: int)
    requires held + n >= 0
    ensures (held % USIZE + n) % USIZE == (held + n) % USIZE
  {
    var q := held / USIZE;
    assert held == q * USIZE + held % USIZE;
    WrapCancel(held % USIZE + n, q);
  }

  lemma {:induction false} WrapCancel(x: int, q: nat)
    ensures (x + q * USIZE) % USIZE == x % USIZE
  {
    if q > 0 {
      WrapCancel(x, q - 1);
      assert x + q * USIZE == (x + (q - 1) * USIZE) + USIZE;
    }
  }

  /** The counter follows the bytes held through every step. */
  lemma CountedStep(s: State, a: Action)
    requires Enabled(s, a) && Exclusive(s) && Counted(s)
    ensures Counted(Step(s, a))
  {
    hide Held;
    HeldStep(s, a);
    match a {
      case Add(_, size, _) => WrapAdd(Held(s), size);
      case Free(_, b) => WrapAdd(Held(s), -(s.blocks[b] as int));
      case Shrink(_, b, newSize, _) => WrapAdd(Held(s), newSize - s.blocks[b]);
      case _ =>
    }
  }

  /** While the bytes held fit a word, the counter is exactly them and a refund never takes it below zero. */
  lemma RefundsFit(s: State, a: Action)
    requires Enabled(s, a) && Exclusive(s) && Counted(s) && Held(s) < USIZE
    ensures s.live == Held(s)
    ensures a.Free? ==> s.live >= s.blocks[a.block] && Step(s, a).live == s.live - s.blocks[a.block]
    ensures a.Shrink? ==>
      s.live >= s.blocks[a.block] - a.newSize && Step(s, a).live == s.live - (s.blocks[a.block] - a.newSize)
  {
    hide Held, Exclusive;
    HeldStep(s, a);
  }

  ghost predicate Safe(s: State)
  {
    Counted(s) && Exclusive(s) && PassedWithin(s) && BaselineLow(s) && RefusedEnds(s)
  }

  lemma SafeStep(s: State, a: Action)
    requires Enabled(s, a) && Safe(s)
    ensures Safe(Step(s, a))
    ensures Step(s, a).baseline <= s.baseline
  {
    hide Held, Counted, Exclusive, Usable, PassedWithin, BaselineLow, RefusedEnds, Step;
    CountedStep(s, a);
    ExclusiveStep(s, a);
    PassedStep(s, a);
    BaselineStep(s, a);
    RefusedStep(s, a);
  }

  lemma PassedStep(s: State, a: Action)
    requires Enabled(s, a) && PassedWithin(s)
    ensures PassedWithin(Step(s, a))
  {
    hide Usable;
  }

  lemma BaselineStep(s: State, a: Action)
    requires Enabled(s, a) && BaselineLow(s)
    ensures BaselineLow(Step(s, a)) && Step(s, a).baseline <= s.baseline
  {
    hide Usable;
  }

  lemma RefusedStep(s: State, a: Action)
    requires Enabled(s, a) && RefusedEnds(s)
    ensures RefusedEnds(Step(s, a))
  {
    hide Usable;
  }

  lemma StartSafe()
    ensures Safe(START)
  {
  }

  /** Every state of every interleaving is safe. */
  lemma {:induction false} RunSafe(states: seq<State>, actions: seq<Action>, n: nat)
    requires IsRun(states, actions) && n < |states|
    ensures Safe(states[n])
  {
    hide Safe, Step;
    if n == 0 {
      StartSafe();
    } else {
      RunSafe(states, actions, n - 1);
      assert states[(n - 1) + 1] == Step(states[n - 1], actions[n - 1]);
      SafeStep(states[n - 1], actions[n - 1]);
    }
  }

  // ---- the limit --------------------------------------------------------------

  ghost predicate Pending(s: State, t: Thread)
  {
    t in s.threads && s.threads[t].Added?
  }

  /** Some thread has yet to be checked and will be refused. */
  ghost predicate Exceeding(s: State)
  {
    exists t :: Pending(s, t) && s.threads[t].live > s.hardLimit
  }

  /** The bytes held are within `most`, unless the process is ending or about to. */
  ghost predicate Bounded(s: State, most: nat)
  {
    s.ending || Exceeding(s) || Held(s) <= most
  }

  /** An add that fits leaves the bytes held within the limit; one that does not, wrapping included, will be refused. */
  lemma AddBounded(s: State, a: Action, most: nat)
    requires Enabled(s, a) && a.Add? && Safe(s) && s.hardLimit < USIZE_MAX && s.hardLimit <= most < USIZE && Held(s) <= most
    ensures Bounded(Step(s, a), most)
  {
    hide Held, Exclusive, Usable, PassedWithin, BaselineLow;
    RefundsFit(s, a);
    HeldStep(s, a);
    assert Pending(Step(s, a), a.t);
  }

  /** Only its own check takes away a thread that will be refused, and that ends the process. */
  lemma ExceedingStays(s: State, a: Action)
    requires Enabled(s, a) && Exceeding(s) && RefusedEnds(s) && !a.StoreLimit?
    ensures Step(s, a).ending || (Exceeding(Step(s, a)) && Step(s, a).hardLimit == s.hardLimit)
  {
    hide Usable;
    var t :| Pending(s, t) && s.threads[t].live > s.hardLimit;
    if !Step(s, a).ending { assert Pending(Step(s, a), t); }
  }

  lemma SafeEnds(s: State)
    requires Safe(s)
    ensures RefusedEnds(s)
  {
    hide Held;
  }

  lemma BoundedStep(s: State, a: Action, most: nat)
    requires Enabled(s, a) && Safe(s) && !a.StoreLimit? && s.hardLimit < USIZE_MAX && s.hardLimit <= most < USIZE && Bounded(s, most)
    ensures Bounded(Step(s, a), most)
    ensures Step(s, a).ending || Step(s, a).hardLimit == s.hardLimit
  {
    hide Held, Usable, Safe, Exceeding;
    SafeEnds(s);
    if s.ending {
      EndingStays(s, a);
    } else if Exceeding(s) {
      ExceedingStays(s, a);
    } else if a.Add? {
      AddBounded(s, a, most);
    } else {
      SafeHeld(s, a);
    }
  }

  lemma SafeHeld(s: State, a: Action)
    requires Enabled(s, a) && Safe(s) && !a.Add?
    ensures Held(Step(s, a)) <= Held(s)
  {
    hide Held, Counted, PassedWithin, BaselineLow, Exclusive;
    HeldStep(s, a);
  }

  lemma {:induction false} RunBounded(states: seq<State>, actions: seq<Action>, i: nat, j: nat, most: nat)
    requires IsRun(states, actions) && i <= j < |states|
    requires Held(states[i]) <= most < USIZE && states[i].hardLimit <= most && states[i].hardLimit < USIZE_MAX
    requires forall k :: i <= k < j ==> !actions[k].StoreLimit?
    ensures states[j].ending || states[j].hardLimit == states[i].hardLimit
    ensures Bounded(states[j], most)
  {
    hide Safe, Step, Held, Exceeding;
    if i < j {
      RunBounded(states, actions, i, j - 1, most);
      RunSafe(states, actions, j - 1);
      assert Enabled(states[j - 1], actions[j - 1]) && states[(j - 1) + 1] == Step(states[j - 1], actions[j - 1]);
      if states[j - 1].ending {
        EndingStays(states[j - 1], actions[j - 1]);
      } else {
        BoundedStep(states[j - 1], actions[j - 1], most);
      }
    }
  }

  lemma EndingStays(s: State, a: Action)
    requires Enabled(s, a) && s.ending
    ensures Step(s, a).ending
  {
  }

  /**
   * Under a limit, however the threads interleave until it is next changed:
   * unless the process is ending, whenever no thread stands between its add and
   * its check the counter is exactly the bytes held, and these exceed neither
   * the limit nor, where they already passed it, what they were at the start.
   */
  lemma RunWithinLimit(states: seq<State>, actions: seq<Action>, i: nat, j: nat)
    requires IsRun(states, actions) && i <= j < |states|
    requires Held(states[i]) < USIZE && states[i].hardLimit < USIZE_MAX
    requires forall k :: i <= k < j ==> !actions[k].StoreLimit?
    ensures !states[j].ending && (forall t :: !Pending(states[j], t)) ==>
      && states[j].hardLimit == states[i].hardLimit
      && states[j].live == Held(states[j])
      && (Held(states[j]) <= states[i].hardLimit || Held(states[j]) <= Held(states[i]))
  {
    hide Safe, Step, Held;
    var most := if Held(states[i]) > states[i].hardLimit then Held(states[i]) else states[i].hardLimit;
    RunBounded(states, actions, i, j, most);
    RunSafe(states, actions, j);
    if Held(states[j]) <= most { SafeCounts(states[j]); }
  }

  lemma SafeCounts(s: State)
    requires Safe(s) && Held(s) < USIZE
    ensures s.live == Held(s)
  {
    hide Held;
  }

  // ---- what fits is never refused ------------------------------------------------

  ghost predicate SystemRefuses(a: Action)
  {
    (a.Allocate? || a.Shrink?) && a.refused
  }

  /** Nobody was refused, and nobody waiting for its check will be. */
  ghost predicate Untroubled(s: State)
  {
    !s.ending && forall t :: Pending(s, t) ==> s.threads[t].live <= s.hardLimit
  }

  lemma UntroubledStep(s: State, a: Action)
    requires Enabled(s, a) && Safe(s) && Untroubled(s) && !a.StoreLimit? && !SystemRefuses(a)
    requires Held(s) <= s.hardLimit < USIZE && Held(Step(s, a)) <= s.hardLimit
    ensures Untroubled(Step(s, a)) && Step(s, a).hardLimit == s.hardLimit
  {
    hide Held, Exclusive, Usable, PassedWithin, BaselineLow;
    SafeCounts(s);
    HeldStep(s, a);
    var u := Step(s, a);
    assert !a.Lift?;
    forall t | Pending(u, t) ensures u.threads[t].live <= u.hardLimit {
      assert Pending(s, t) || (a.Add? && a.t == t);
    }
  }

  /**
   * While the limit stands and the bytes held are never past it, no charge is
   * refused: only the system can end the process.
   */
  lemma {:induction false} RunNeverRefuses(states: seq<State>, actions: seq<Action>, i: nat, j: nat)
    requires IsRun(states, actions) && i <= j < |states| && Untroubled(states[i]) && states[i].hardLimit < USIZE
    requires forall k :: i <= k < j ==> !actions[k].StoreLimit? && !SystemRefuses(actions[k])
    requires forall k :: i <= k <= j ==> Held(states[k]) <= states[i].hardLimit
    ensures Untroubled(states[j]) && states[j].hardLimit == states[i].hardLimit
  {
    hide Safe, Step, Held, Untroubled;
    if i < j {
      RunNeverRefuses(states, actions, i, j - 1);
      RunSafe(states, actions, j - 1);
      assert Enabled(states[j - 1], actions[j - 1]) && states[(j - 1) + 1] == Step(states[j - 1], actions[j - 1]);
      UntroubledStep(states[j - 1], actions[j - 1]);
    }
  }

  /** The whole run of a process without a limit, or one whose limit was stored while nobody waited. */
  lemma StartUntroubled()
    ensures Untroubled(START) && START.hardLimit < USIZE
  {
  }

  // ---- the limit stored ------------------------------------------------------------

  /**
   * The limit a `set_hard_limit` stores: none where none is asked for, and
   * otherwise at least the budget, at most the budget on top of the live total
   * it read, and on top of no less than the baseline now.
   */
  lemma LimitStored(s: State, t: Thread)
    requires Safe(s) && Enabled(s, StoreLimit(t))
    ensures
      var pc, limit := PcOf(s, t), Step(s, StoreLimit(t)).hardLimit;
      && (pc.budget == USIZE_MAX ==> limit == USIZE_MAX)
      && (pc.budget < USIZE_MAX ==> pc.budget <= limit <= pc.live + pc.budget)
      && (pc.budget < USIZE_MAX && s.baseline + pc.budget <= USIZE_MAX ==> s.baseline + pc.budget <= limit)
  {
    hide Held, Exclusive, Counted;
  }

  /** Arming starts from the live total, and not at all where nothing was ever counted. */
  lemma LiveRead(s: State, t: Thread, budget: nat)
    requires Enabled(s, ReadLive(t, budget))
    ensures
      var u := Step(s, ReadLive(t, budget));
      if s.live > 0 then PcOf(u, t) == Arming(s.live, budget) && Enabled(u, LowerBaseline(t)) else u == s
  {
  }

  /** Lowering the baseline leaves the smaller of it and the live total read. */
  lemma BaselineLowered(s: State, t: Thread)
    requires Enabled(s, LowerBaseline(t))
    ensures
      var u, pc := Step(s, LowerBaseline(t)), PcOf(s, t);
      && u.baseline <= s.baseline && u.baseline <= pc.live && u.baseline in {s.baseline, pc.live}
      && PcOf(u, t) == Armed(pc.live, u.baseline, pc.budget)
  {
  }

  // ---- what a call does to its block --------------------------------------------------

  ghost predicate Charging(pc: Pc, size: nat, purpose: Purpose)
  {
    (pc.Added? || pc.Charged?) && pc.size == size && pc.purpose == purpose
  }

  /** The thread is in the middle of growing `b`, which still has its old size. */
  ghost predicate MidGrow(s: State, t: Thread, size: nat, b: Block, was: nat)
  {
    t in s.threads && Charging(s.threads[t], size, Grow(b)) && b in s.blocks && s.blocks[b] == was
  }

  lemma GrowUndisturbed(s: State, a: Action, t: Thread, size: nat, b: Block, was: nat)
    requires Enabled(s, a) && Exclusive(s) && MidGrow(s, t, size, b, was) && (a.t == t ==> a.Check?)
    ensures Step(s, a).ending || MidGrow(Step(s, a), t, size, b, was)
  {
    assert Growing(s.threads[t], b);
  }

  /** However other threads interleave, a block that grew holds its old bytes and the new ones. */
  lemma {:induction false} RunGrows(states: seq<State>, actions: seq<Action>, i: nat, j: nat)
    requires IsRun(states, actions) && i < j < |actions|
    requires actions[i].Add? && actions[i].purpose.Grow?
    requires actions[j].Allocate? && actions[j].t == actions[i].t && !actions[j].refused
    requires forall k :: i < k < j && actions[k].t == actions[i].t ==> actions[k].Check?
    requires !states[j].ending
    ensures
      var b := actions[i].purpose.block;
      && b in states[i].blocks && b in states[j + 1].blocks
      && states[j + 1].blocks[b] == states[i].blocks[b] + actions[i].size
  {
    hide Safe;
    var b := actions[i].purpose.block;
    MidwayGrows(states, actions, i, j);
    assert Enabled(states[j], actions[j]) && states[j + 1] == Step(states[j], actions[j]);
    assert Enabled(states[i], actions[i]);
  }

  lemma {:induction false} MidwayGrows(states: seq<State>, actions: seq<Action>, i: nat, j: nat)
    requires IsRun(states, actions) && i < j < |states|
    requires actions[i].Add? && actions[i].purpose.Grow? && !states[j].ending
    requires forall k :: i < k < j && actions[k].t == actions[i].t ==> actions[k].Check?
    ensures actions[i].purpose.block in states[i].blocks
    ensures MidGrow(states[j], actions[i].t, actions[i].size, actions[i].purpose.block,
                    states[i].blocks[actions[i].purpose.block])
    decreases j
  {
    hide Safe;
    assert Enabled(states[j - 1], actions[j - 1]) && states[(j - 1) + 1] == Step(states[j - 1], actions[j - 1]);
    if j > i + 1 {
      if states[j - 1].ending { EndingStays(states[j - 1], actions[j - 1]); }
      MidwayGrows(states, actions, i, j - 1);
      RunSafe(states, actions, j - 1);
      SafeExclusive(states[j - 1]);
      GrowUndisturbed(states[j - 1], actions[j - 1], actions[i].t, actions[i].size, actions[i].purpose.block,
                      states[i].blocks[actions[i].purpose.block]);
    }
  }

  lemma SafeExclusive(s: State)
    requires Safe(s)
    ensures Exclusive(s)
  {
    hide Held;
  }

  /** A new block holds the bytes it was charged. */
  lemma BlockMade(s: State, t: Thread, id: Block)
    requires Enabled(s, Allocate(t, id, false)) && PcOf(s, t).purpose.NewBlock?
    ensures
      var u := Step(s, Allocate(t, id, false));
      && u.blocks.Keys == s.blocks.Keys + {id} && u.blocks[id] == PcOf(s, t).size && PcOf(u, t) == Idle
      && forall b :: b in s.blocks ==> u.blocks[b] == s.blocks[b]
  {
  }
}
