/** What a push's outcome says about the objects its value reaches. */
module GraphCycles {
  import opened GraphArena
  import opened GraphModel
  import opened GraphPush

  /** An object in the role it is met in: a class type object would encode as a plain one if it were met as a value. */
  datatype Spot = AsValue(ref: Ref) | AsClass(ref: Ref)

  /** The memoized object a child leads to, if any. */
  ghost function Targets(heap: Heap, c: Child): set<Spot>
  {
    match c
    case ClassChild(r) => {AsClass(r)}
    case ValueChild(Object(r)) =>
      if r !in heap.shapes || heap.shapes[r].LeafMarker? then {}
      else if heap.shapes[r].TypeMarker? then {AsClass(heap.shapes[r].class_)}
      else {AsValue(r)}
    case _ => {}
  }

  /** A child that is not refused on sight. */
  ghost predicate Convertible(heap: Heap, c: Child)
  {
    match c
    case ClassChild(r) => r in heap.classes
    case ValueChild(LeafValue(_)) => true
    case ValueChild(Unsupported) => false
    case ValueChild(Object(r)) =>
      r in heap.shapes && (heap.shapes[r].TypeMarker? ==> heap.shapes[r].class_ in heap.classes)
  }

  ghost function ChildrenOf(heap: Heap, s: Spot): seq<Child>
  {
    match s
    case AsClass(r) => if r in heap.classes then ValueChildren(heap.classes[r].attrs) else []
    case AsValue(r) =>
      if r !in heap.shapes then []
      else match heap.shapes[r]
        case Container(_, items) => ValueChildren(items)
        case Module(_, _, attrs) => ValueChildren(attrs)
        case Instance(cls, _, attrs) => [ClassChild(cls)] + ValueChildren(attrs)
        case _ => []
  }

  ghost predicate Edge(heap: Heap, a: Spot, b: Spot)
  {
    exists i :: 0 <= i < |ChildrenOf(heap, a)| && b in Targets(heap, ChildrenOf(heap, a)[i])
  }

  ghost predicate IsPath(heap: Heap, p: seq<Spot>)
  {
    forall i :: 0 < i < |p| ==> Edge(heap, p[i - 1], p[i])
  }

  ghost predicate Leads(heap: Heap, p: seq<Spot>, a: Spot, b: Spot)
  {
    |p| > 0 && p[0] == a && p[|p| - 1] == b && IsPath(heap, p)
  }

  ghost predicate Reaches(heap: Heap, a: Spot, b: Spot)
  {
    exists p :: Leads(heap, p, a, b)
  }

  /** Reached in at least one step. */
  ghost predicate Descends(heap: Heap, a: Spot, b: Spot)
  {
    exists k :: Edge(heap, a, k) && Reaches(heap, k, b)
  }

  /** An object that reaches itself, in one role or the other. */
  ghost predicate Loops(heap: Heap, a: Spot)
  {
    exists b :: Descends(heap, a, b) && a.ref == b.ref
  }

  ghost predicate CycleBelow(heap: Heap, a: Spot)
  {
    exists r :: Reaches(heap, a, r) && Loops(heap, r)
  }

  ghost predicate HoldsBad(heap: Heap, s: Spot)
  {
    exists i :: 0 <= i < |ChildrenOf(heap, s)| && !Convertible(heap, ChildrenOf(heap, s)[i])
  }

  ghost predicate BadBelow(heap: Heap, a: Spot)
  {
    exists r :: Reaches(heap, a, r) && HoldsBad(heap, r)
  }

  ghost predicate Cyclic(heap: Heap, c: Child)
  {
    exists t :: t in Targets(heap, c) && CycleBelow(heap, t)
  }

  ghost predicate Refused(heap: Heap, c: Child)
  {
    !Convertible(heap, c) || exists t :: t in Targets(heap, c) && BadBelow(heap, t)
  }

  lemma ReachesSelf(heap: Heap, a: Spot)
    ensures Reaches(heap, a, a)
  {
    assert Leads(heap, [a], a, a);
  }

  lemma ReachesStep(heap: Heap, a: Spot, k: Spot, b: Spot)
    requires Edge(heap, a, k) && Reaches(heap, k, b)
    ensures Reaches(heap, a, b)
  {
    hide Edge;
    var p :| Leads(heap, p, k, b);
    assert Leads(heap, [a] + p, a, b);
  }

  lemma ReachesEdge(heap: Heap, a: Spot, b: Spot, t: Spot)
    requires Reaches(heap, a, b) && Edge(heap, b, t)
    ensures Reaches(heap, a, t)
  {
    hide Edge;
    var p :| Leads(heap, p, a, b);
    assert Leads(heap, p + [t], a, t);
  }

  lemma ReachesThrough(heap: Heap, a: Spot, b: Spot, c: Spot)
    requires Reaches(heap, a, b) && Reaches(heap, b, c)
    ensures Reaches(heap, a, c)
  {
    hide Edge;
    var p :| Leads(heap, p, a, b);
    var q :| Leads(heap, q, b, c);
    var w := p + q[1..];
    forall i | 0 < i < |w| ensures Edge(heap, w[i - 1], w[i]) {
      if i >= |p| { assert w[i] == q[i - |p| + 1] && w[i - 1] == q[i - |p|]; }
    }
    assert Leads(heap, w, a, c);
  }

  lemma DescendsEdge(heap: Heap, a: Spot, b: Spot, t: Spot)
    requires Descends(heap, a, b) && Edge(heap, b, t)
    ensures Descends(heap, a, t)
  {
    hide Edge, Reaches;
    var k :| Edge(heap, a, k) && Reaches(heap, k, b);
    ReachesEdge(heap, k, b, t);
  }

  lemma CycleAbove(heap: Heap, a: Spot, k: Spot)
    requires Edge(heap, a, k)
    ensures CycleBelow(heap, k) ==> CycleBelow(heap, a)
    ensures BadBelow(heap, k) ==> BadBelow(heap, a)
  {
    hide Edge, Reaches, Descends, HoldsBad, Loops;
    forall r | Reaches(heap, k, r) ensures Reaches(heap, a, r) { ReachesStep(heap, a, k, r); }
  }

  // ---- what a failed push means --------------------------------------------------

  /** Why a child fails to encode below the objects `up`, which are still being pushed. */
  ghost predicate Trouble(heap: Heap, up: set<Spot>, c: Child, err: EncodeError)
  {
    match err
    case Circular => Cyclic(heap, c) || exists a :: a in up && Loops(heap, a)
    case Unconvertible => Refused(heap, c)
    case NotAClassType => true
  }

  /** The objects `up` are those still being pushed, all of them above the child. */
  ghost predicate Above(heap: Heap, e: Enc, up: set<Spot>, c: Child)
  {
    && (forall r :: r in Open(e) ==> exists s :: s in up && s.ref == r)
    && (forall s, t :: s in up && t in Targets(heap, c) ==> Descends(heap, s, t))
  }

  /** A child's trouble is its holder's. */
  lemma TroubleAbove(heap: Heap, up: set<Spot>, c: Child, key: Spot, i: nat, err: EncodeError)
    requires Targets(heap, c) == {key} && i < |ChildrenOf(heap, key)|
    requires Trouble(heap, up + {key}, ChildrenOf(heap, key)[i], err)
    ensures Trouble(heap, up, c, err)
  {
    hide CycleBelow, ChildrenOf, Targets, Convertible, Loops;
    var child := ChildrenOf(heap, key)[i];
    ReachesSelf(heap, key);
    forall t | t in Targets(heap, child)
      ensures CycleBelow(heap, t) ==> CycleBelow(heap, key)
      ensures BadBelow(heap, t) ==> BadBelow(heap, key)
    {
      assert Edge(heap, key, t);
      CycleAbove(heap, key, t);
    }
    if err == Unconvertible && !Convertible(heap, child) { assert HoldsBad(heap, key); }
    if Loops(heap, key) { LoopsHere(heap, key); }
  }

  lemma LoopsHere(heap: Heap, a: Spot)
    requires Loops(heap, a)
    ensures CycleBelow(heap, a)
  {
    hide Loops;
    ReachesSelf(heap, a);
  }

  lemma OpensChildren(heap: Heap, c: Child, pending: Pending, key: Ref, children: seq<Child>)
    requires Opens(heap, c, pending, key, children)
    ensures
      var s := if pending.PendingClass? then AsClass(key) else AsValue(key);
      children == ChildrenOf(heap, s) && Targets(heap, c) == {s} && Convertible(heap, c)
  {
  }

  lemma StepFails(heap: Heap, e: Enc, up: set<Spot>, c: Child)
    requires Above(heap, e, up, c) && StepChild(heap, e, c).Fail?
    ensures Trouble(heap, up, c, StepChild(heap, e, c).error)
  {
    hide Edge, Descends, CycleBelow, BadBelow, ValueChildren;
    var s := StepChild(heap, e, c);
    if s.error == Circular {
      var r := c.value.ref;
      assert r in Open(e) && AsValue(r) in Targets(heap, c);
      var a :| a in up && a.ref == r;
      assert Descends(heap, a, AsValue(r));
    }
  }

  /** Entering an object puts it above its own children, along with all that was above it. */
  lemma AboveChildren(heap: Heap, e: Enc, up: set<Spot>, c: Child, key: Spot, i: nat)
    requires Above(heap, e, up, c) && Targets(heap, c) == {key} && i < |ChildrenOf(heap, key)|
    ensures Above(heap, e.(memo := e.memo[key.ref := InProgress]), up + {key}, ChildrenOf(heap, key)[i])
  {
    hide ChildrenOf, Targets, Reaches;
    forall s, t | s in up + {key} && t in Targets(heap, ChildrenOf(heap, key)[i]) ensures Descends(heap, s, t) {
      assert Edge(heap, key, t);
      if s in up { DescendsEdge(heap, s, key, t); } else { ReachesSelf(heap, t); }
    }
    var marked := e.(memo := e.memo[key.ref := InProgress]);
    forall r | r in Open(marked) ensures exists s :: s in up + {key} && s.ref == r {
      if r in Open(e) {
        var s :| s in up && s.ref == r;
        assert s in up + {key};
      } else {
        assert key in up + {key} && key.ref == r;
      }
    }
  }

  ghost predicate AllAbove(heap: Heap, e: Enc, up: set<Spot>, cs: seq<Child>)
  {
    forall i :: 0 <= i < |cs| ==> Above(heap, e, up, cs[i])
  }

  ghost predicate SomeTrouble(heap: Heap, up: set<Spot>, cs: seq<Child>, err: EncodeError)
  {
    exists i :: 0 <= i < |cs| && Trouble(heap, up, cs[i], err)
  }

  lemma SameAbove(heap: Heap, a: Enc, b: Enc, up: set<Spot>, cs: seq<Child>)
    requires AllAbove(heap, a, up, cs) && Open(a) == Open(b)
    ensures AllAbove(heap, b, up, cs)
  {
    hide Targets, Descends;
    forall i | 0 <= i < |cs| ensures Above(heap, b, up, cs[i]) { assert Above(heap, a, up, cs[i]); }
  }

  lemma {:induction false} Errs(heap: Heap, e: Enc, up: set<Spot>, c: Child)
    requires Inv(heap, e) && Above(heap, e, up, c)
    ensures EncodeChild(heap, e, c).Err? ==> Trouble(heap, up, c, EncodeChild(heap, e, c).error)
    decreases |Unmet(heap, e)|, 0, 0
  {
    hide Inv, StepChild, BuildNode, Unmet, Above, Trouble, ChildrenOf, Targets, Opens, Grows, AllEncoded;
    EnterMeetsOne(heap, e, c);
    EnterMeans(heap, e, c);
    var s := StepChild(heap, e, c);
    if s.Fail? {
      StepFails(heap, e, up, c);
    } else if s.Enter? {
      MarkKeeps(heap, e, s.key);
      OpensChildren(heap, c, s.pending, s.key, s.children);
      var key := if s.pending.PendingClass? then AsClass(s.key) else AsValue(s.key);
      forall i | 0 <= i < |s.children| ensures Above(heap, s.enc, up + {key}, s.children[i]) {
        AboveChildren(heap, e, up, c, key, i);
      }
      ErrsAll(heap, s.enc, up + {key}, s.children);
      var pushed := EncodeChildren(heap, s.enc, s.children);
      if pushed.Err? {
        var i :| 0 <= i < |s.children| && Trouble(heap, up + {key}, s.children[i], pushed.error);
        TroubleAbove(heap, up, c, key, i, pushed.error);
      } else {
        BuildFails(heap, up, c, pushed.value.0, s.pending, pushed.value.1);
      }
    }
  }

  lemma BuildFails(heap: Heap, up: set<Spot>, c: Child, e: Enc, pending: Pending, ids: seq<Id>)
    ensures
      var built := BuildNode(e.graph, pending, ids);
      built.Err? ==> built.error == NotAClassType && Trouble(heap, up, c, built.error)
  {
  }

  lemma {:induction false} ErrsAll(heap: Heap, e: Enc, up: set<Spot>, cs: seq<Child>)
    requires Inv(heap, e) && AllAbove(heap, e, up, cs)
    ensures EncodeChildren(heap, e, cs).Err? ==> SomeTrouble(heap, up, cs, EncodeChildren(heap, e, cs).error)
    decreases |Unmet(heap, e)|, 1, |cs|
  {
    hide Inv, Unmet, EncodeChild, Above, Trouble, Grows, Encodes;
    if cs != [] {
      Errs(heap, e, up, cs[0]);
      EncodeKeeps(heap, e, cs[0]);
      var first := EncodeChild(heap, e, cs[0]);
      if first.Ok? {
        var e1 := first.value.0;
        UnmetShrinks(heap, e, e1);
        SameAbove(heap, e, e1, up, cs);
        ErrsAll(heap, e1, up, cs[1..]);
        var rest := EncodeChildren(heap, e1, cs[1..]);
        if rest.Err? {
          var i :| 0 <= i < |cs[1..]| && Trouble(heap, up, cs[1..][i], rest.error);
          assert cs[i + 1] == cs[1..][i];
        }
      }
    }
  }

  // ---- what a successful push leaves ---------------------------------------------

  /** A part of the heap no edge leaves, in which no object is met both as a value and as a class type. */
  ghost predicate RolesApart(heap: Heap, scope: iset<Spot>)
  {
    && (forall r, k :: r in scope && Edge(heap, r, k) ==> k in scope)
    && (forall r :: AsValue(r) in scope ==> AsClass(r) !in scope)
  }

  /** A child whose objects lie in such a part. */
  ghost predicate Within(heap: Heap, scope: iset<Spot>, c: Child)
  {
    forall t :: t in Targets(heap, c) ==> t in scope
  }

  ghost predicate Settled(e: Enc, s: Spot)
  {
    s.ref in e.memo && e.memo[s.ref].Finished?
  }

  /** A class still being pushed: met again, it is copied instead of entered. */
  ghost predicate OpenClass(heap: Heap, e: Enc, s: Spot)
  {
    s.AsClass? && s.ref in Open(e) && s.ref in heap.classes
  }

  /** A finished object was pushed in its role. */
  ghost predicate InRole(e: Enc, s: Spot)
  {
    Settled(e, s) ==>
      e.memo[s.ref].id < |e.graph| && (e.graph[e.memo[s.ref].id].ClassNode? <==> s.AsClass?)
  }

  /** Finished objects hold only finished ones, values among them with smaller ids, and classes still being pushed. */
  ghost predicate Linked(heap: Heap, e: Enc, scope: iset<Spot>)
  {
    && (forall r :: r in scope ==> InRole(e, r))
    && (forall r :: r in scope && Settled(e, r) ==> !HoldsBad(heap, r))
    && (forall r, k :: r in scope && Settled(e, r) && Edge(heap, r, k) ==> Settled(e, k) || OpenClass(heap, e, k))
    && (forall r, k :: r in scope && Settled(e, r) && Edge(heap, r, k) && k.AsValue? && Settled(e, k) ==>
      e.memo[k.ref].id < e.memo[r.ref].id)
  }

  /** With nothing open, whatever a finished object reaches is finished. */
  lemma {:induction false} PathSettled(heap: Heap, e: Enc, scope: iset<Spot>, p: seq<Spot>, a: Spot, b: Spot)
    requires Linked(heap, e, scope) && RolesApart(heap, scope) && Open(e) == {}
    requires Leads(heap, p, a, b) && Settled(e, a) && a in scope
    ensures Settled(e, b) && b in scope
  {
    hide Edge, HoldsBad, InRole;
    if |p| > 1 {
      var q := p[1..];
      assert Edge(heap, p[0], p[1]);
      forall i | 0 < i < |q| ensures Edge(heap, q[i - 1], q[i]) { assert Edge(heap, p[i], p[i + 1]); }
      PathSettled(heap, e, scope, q, p[1], b);
    }
  }

  ghost predicate AllValues(p: seq<Spot>)
  {
    forall i :: 0 <= i < |p| ==> p[i].AsValue?
  }

  /** Along a path of values ids only fall. */
  lemma {:induction false} PathFalls(heap: Heap, e: Enc, scope: iset<Spot>, p: seq<Spot>, a: Spot, b: Spot)
    requires Linked(heap, e, scope) && RolesApart(heap, scope)
    requires Leads(heap, p, a, b) && AllValues(p) && Settled(e, a) && a in scope
    ensures Settled(e, b) && e.memo[b.ref].id <= e.memo[a.ref].id
  {
    hide Edge, HoldsBad, InRole;
    if |p| > 1 {
      var q := p[1..];
      assert Edge(heap, p[0], p[1]);
      assert p[1] in scope && !OpenClass(heap, e, p[1]);
      forall i | 0 < i < |q| ensures Edge(heap, q[i - 1], q[i]) { assert Edge(heap, p[i], p[i + 1]); }
      PathFalls(heap, e, scope, q, p[1], b);
    }
  }

  /** A cycle through values alone. */
  ghost predicate ValueLoop(heap: Heap, p: seq<Spot>, r: Spot)
  {
    r.AsValue? && AllValues(p) && p != [] && Edge(heap, r, p[0]) && Leads(heap, p, p[0], r)
  }

  ghost predicate ValueCycleBelow(heap: Heap, a: Spot)
  {
    exists r, p :: Reaches(heap, a, r) && ValueLoop(heap, p, r)
  }

  ghost predicate ValueCyclic(heap: Heap, c: Child)
  {
    exists t :: t in Targets(heap, c) && ValueCycleBelow(heap, t)
  }

  /** Below a finished object nothing is refused and no cycle is made of values alone. */
  lemma SettledIsClean(heap: Heap, e: Enc, scope: iset<Spot>, a: Spot)
    requires Linked(heap, e, scope) && RolesApart(heap, scope) && Open(e) == {} && Settled(e, a) && a in scope
    ensures !BadBelow(heap, a) && !ValueCycleBelow(heap, a)
    ensures forall r :: Reaches(heap, a, r) ==> Settled(e, r) && r in scope
  {
    hide Edge, HoldsBad, Leads, RolesApart, AllValues, OpenClass, InRole;
    forall r | Reaches(heap, a, r) ensures Settled(e, r) && r in scope && !HoldsBad(heap, r) {
      var q :| Leads(heap, q, a, r);
      PathSettled(heap, e, scope, q, a, r);
    }
    forall r, p | Reaches(heap, a, r) ensures !ValueLoop(heap, p, r) {
      if ValueLoop(heap, p, r) { NoValueLoop(heap, e, scope, p, r); }
    }
  }

  lemma NoValueLoop(heap: Heap, e: Enc, scope: iset<Spot>, p: seq<Spot>, r: Spot)
    requires Linked(heap, e, scope) && RolesApart(heap, scope) && Settled(e, r) && r in scope
    ensures !ValueLoop(heap, p, r)
  {
    hide Edge, HoldsBad, InRole;
    if ValueLoop(heap, p, r) {
      assert p[0] in scope && !OpenClass(heap, e, p[0]);
      PathFalls(heap, e, scope, p, p[0], r);
    }
  }

  // ---- the traversal ------------------------------------------------------------

  ghost predicate Clear(heap: Heap, e: Enc, c: Child)
  {
    Convertible(heap, c) && forall t :: t in Targets(heap, c) ==> Settled(e, t) || OpenClass(heap, e, t)
  }

  ghost predicate Sound(heap: Heap, e: Enc, scope: iset<Spot>)
  {
    Inv(heap, e) && Linked(heap, e, scope) && RolesApart(heap, scope)
  }

  /** A class already finished in its role is a class. */
  lemma FinishedClass(heap: Heap, e: Enc, r: Ref)
    requires MemoShows(heap, e) && Settled(e, AsClass(r)) && InRole(e, AsClass(r))
    ensures r in heap.classes
  {
    hide Encodes, PairsEncoded, AllEncoded;
    assert NodeShows(heap, e, r, e.graph[e.memo[r].id]);
  }

  lemma LinkedShare(heap: Heap, e: Enc, scope: iset<Spot>, r: Ref, id: Id)
    requires Linked(heap, e, scope) && RolesApart(heap, scope) && r !in e.memo && ChildrenOf(heap, AsClass(r)) == []
    requires AsClass(r) in scope && id < |e.graph| && e.graph[id].ClassNode?
    ensures Linked(heap, e.(memo := e.memo[r := Finished(id)]), scope)
  {
    hide ChildrenOf, Targets;
    var shared := e.(memo := e.memo[r := Finished(id)]);
    assert Open(shared) == Open(e);
    assert !HoldsBad(heap, AsClass(r)) && forall k :: !Edge(heap, AsClass(r), k);
    forall s | s in scope && s.ref == r ensures s == AsClass(r) {}
    hide Edge, HoldsBad;
  }

  lemma ClassStep(heap: Heap, e: Enc, scope: iset<Spot>, r: Ref, c: Child)
    requires Sound(heap, e, scope) && Targets(heap, c) == {AsClass(r)} && AsClass(r) in scope
    requires r in heap.classes ==> Convertible(heap, c)
    ensures
      var s := EnterClassType(heap, e, r);
      s.Done? ==> Linked(heap, s.enc, scope) && Clear(heap, s.enc, c)
  {
    hide Targets, Convertible, Edge, HoldsBad, ArenaValid, NodeShows, Owned;
    if r in e.memo {
      assert e.memo[r].Finished? || r in Open(e);
      if e.memo[r].Finished? {
        FinishedClass(heap, e, r);
      } else if r in heap.classes {
        LeafLinked(heap, e, scope, ClassNode(heap.classes[r].header, []));
        var pushed := e.(graph := e.graph + [ClassNode(heap.classes[r].header, [])]);
        assert Open(pushed) == Open(e);
      }
    } else if r in heap.classes && heap.classes[r].attrs == [] && heap.classes[r].header.id in e.classTypes {
      LinkedShare(heap, e, scope, r, e.classTypes[heap.classes[r].header.id]);
    }
  }

  lemma LeafLinked(heap: Heap, e: Enc, scope: iset<Spot>, node: Node)
    requires Linked(heap, e, scope)
    ensures Linked(heap, e.(graph := e.graph + [node]), scope)
  {
    hide Edge, HoldsBad;
    assert Open(e.(graph := e.graph + [node])) == Open(e);
  }

  lemma StepClear(heap: Heap, e: Enc, scope: iset<Spot>, c: Child)
    requires Sound(heap, e, scope) && Within(heap, scope, c)
    ensures
      var s := StepChild(heap, e, c);
      && (s.Done? ==> Linked(heap, s.enc, scope) && Clear(heap, s.enc, c))
      && (s.Fail? ==> s.error != NotAClassType)
  {
    hide Edge, HoldsBad, Inv, ValueChildren, Linked, RolesApart;
    if c.ClassChild? {
      ClassStep(heap, e, scope, c.ref, c);
    } else if c.value.LeafValue? {
      LeafLinked(heap, e, scope, LeafNode(EncodeLeaf(c.value.leaf)));
    } else if c.value.Object? && c.value.ref in heap.shapes {
      var r := c.value.ref;
      if heap.shapes[r].TypeMarker? {
        ClassStep(heap, e, scope, heap.shapes[r].class_, c);
      } else if heap.shapes[r].LeafMarker? {
        LeafLinked(heap, e, scope, LeafNode(ObjectLeaf(heap.shapes[r].k)));
      }
    }
  }

  lemma LinkedMark(heap: Heap, e: Enc, scope: iset<Spot>, key: Ref)
    requires Linked(heap, e, scope) && key !in e.memo
    ensures Linked(heap, e.(memo := e.memo[key := InProgress]), scope)
  {
    hide Edge, HoldsBad;
    var marked := e.(memo := e.memo[key := InProgress]);
    assert Open(marked) == Open(e) + {key};
  }

  lemma LinkedRecord(heap: Heap, e: Enc, scope: iset<Spot>, key: Spot, node: Node)
    requires Linked(heap, e, scope) && MemoShows(heap, e) && RolesApart(heap, scope)
    requires key.ref in Open(e) && key in scope && (node.ClassNode? <==> key.AsClass?)
    requires AllClear(heap, e, ChildrenOf(heap, key))
    ensures Linked(heap, Record(e, key.ref, node), scope)
  {
    hide ChildrenOf, Targets, Convertible, NodeShows;
    var built := Record(e, key.ref, node);
    assert Open(built) == Open(e) - {key.ref};
    assert !HoldsBad(heap, key);
    forall k | Edge(heap, key, k) ensures Settled(e, k) || OpenClass(heap, e, k) {
      var i :| 0 <= i < |ChildrenOf(heap, key)| && k in Targets(heap, ChildrenOf(heap, key)[i]);
      assert Clear(heap, e, ChildrenOf(heap, key)[i]);
    }
    forall s | s in scope && s.ref == key.ref ensures s == key { OneRole(heap, scope, s, key); }
    RecordSettles(e, key.ref, node);
    hide Edge, HoldsBad, Record;
    LinkedFinish(heap, e, built, scope, key);
  }

  lemma OneRole(heap: Heap, scope: iset<Spot>, a: Spot, b: Spot)
    requires RolesApart(heap, scope) && a in scope && b in scope && a.ref == b.ref
    ensures a == b
  {
    hide Edge;
    assert a == AsValue(a.ref) || a == AsClass(a.ref);
    assert b == AsValue(a.ref) || b == AsClass(a.ref);
  }

  lemma RecordSettles(e: Enc, key: Ref, node: Node)
    ensures
      var built := Record(e, key, node);
      && built.graph == e.graph + [node] && built.memo == e.memo[key := Finished(|e.graph|)]
  {
  }

  /** Finishing one object of which all that it holds is finished or an open class. */
  lemma LinkedFinish(heap: Heap, e: Enc, built: Enc, scope: iset<Spot>, key: Spot)
    requires Linked(heap, e, scope) && RolesApart(heap, scope) && key in scope && key.ref in Open(e)
    requires |built.graph| == |e.graph| + 1 && e.graph == built.graph[..|e.graph|]
    requires built.memo == e.memo[key.ref := Finished(|e.graph|)] && Open(built) == Open(e) - {key.ref}
    requires built.graph[|e.graph|].ClassNode? <==> key.AsClass?
    requires forall s :: s in scope && s.ref == key.ref ==> s == key
    requires !HoldsBad(heap, key) && forall k :: Edge(heap, key, k) ==> Settled(e, k) || OpenClass(heap, e, k)
    requires forall r :: r in e.memo && e.memo[r].Finished? ==> e.memo[r].id < |e.graph|
    ensures Linked(heap, built, scope)
  {
    hide Edge, HoldsBad;
    forall r | r in scope ensures InRole(built, r) { assert InRole(e, r); }
    forall r, k | r in scope && Settled(built, r) && Edge(heap, r, k)
      ensures Settled(built, k) || OpenClass(heap, built, k)
      ensures k.AsValue? && Settled(built, k) ==> built.memo[k.ref].id < built.memo[r.ref].id
    {
      assert k in scope;
      assert r == key || Settled(e, r);
    }
  }

  /** The class an instance names is a class node, so building it does not fail. */
  lemma BuildSucceeds(heap: Heap, e: Enc, scope: iset<Spot>, c: Child, pending: Pending, key: Ref,
                      children: seq<Child>, ids: seq<Id>)
    requires Opens(heap, c, pending, key, children) && AllEncoded(heap, e, children, ids)
    requires Linked(heap, e, scope) && forall i :: 0 <= i < |children| ==> Within(heap, scope, children[i])
    ensures BuildNode(e.graph, pending, ids).Ok?
  {
    hide PairsEncoded, IdPairs, Edge, HoldsBad;
    if pending.PendingInstance? {
      var cls := heap.shapes[key].class_;
      assert Encodes(heap, e, children[0], ids[0]) && Within(heap, scope, children[0]);
      assert children[0] == ClassChild(cls) && AsClass(cls) in Targets(heap, children[0]);
      assert InRole(e, AsClass(cls));
    }
  }

  ghost predicate AllWithin(heap: Heap, scope: iset<Spot>, cs: seq<Child>)
  {
    forall i :: 0 <= i < |cs| ==> Within(heap, scope, cs[i])
  }

  ghost predicate AllClear(heap: Heap, e: Enc, cs: seq<Child>)
  {
    forall i :: 0 <= i < |cs| ==> Clear(heap, e, cs[i])
  }

  lemma ChildrenWithin(heap: Heap, scope: iset<Spot>, r: Spot)
    requires RolesApart(heap, scope) && r in scope
    ensures AllWithin(heap, scope, ChildrenOf(heap, r))
  {
    hide ChildrenOf, Targets;
    forall i, t | 0 <= i < |ChildrenOf(heap, r)| && t in Targets(heap, ChildrenOf(heap, r)[i]) ensures t in scope {
      assert Edge(heap, r, t);
    }
  }

  /** What entering a frame asks of its children. */
  lemma EnterReady(heap: Heap, e: Enc, scope: iset<Spot>, c: Child)
    requires Sound(heap, e, scope) && Within(heap, scope, c) && StepChild(heap, e, c).Enter?
    ensures
      var s := StepChild(heap, e, c);
      var key := if s.pending.PendingClass? then AsClass(s.key) else AsValue(s.key);
      && Sound(heap, s.enc, scope) && AllWithin(heap, scope, s.children) && Inv(heap, e)
      && s.children == ChildrenOf(heap, key) && Targets(heap, c) == {key} && Convertible(heap, c) && key in scope
  {
    hide Inv, StepChild, ChildrenOf, Targets, Convertible, Opens, RolesApart, Linked;
    var s := StepChild(heap, e, c);
    EnterMeans(heap, e, c);
    MarkKeeps(heap, e, s.key);
    LinkedMark(heap, e, scope, s.key);
    OpensChildren(heap, c, s.pending, s.key, s.children);
    ChildrenWithin(heap, scope, if s.pending.PendingClass? then AsClass(s.key) else AsValue(s.key));
  }

  lemma BuiltRole(graph: seq<Node>, pending: Pending, ids: seq<Id>)
    ensures
      var built := BuildNode(graph, pending, ids);
      built.Ok? ==> (built.value.ClassNode? <==> pending.PendingClass?)
  {
  }

  lemma CompleteClear(heap: Heap, e: Enc, scope: iset<Spot>, c: Child, pushed: Enc, ids: seq<Id>)
    requires StepChild(heap, e, c).Enter? && Sound(heap, e, scope) && Within(heap, scope, c)
    requires
      var s := StepChild(heap, e, c);
      && Kept(heap, s.enc, pushed) && AllEncoded(heap, pushed, s.children, ids)
      && Linked(heap, pushed, scope) && AllClear(heap, pushed, s.children)
    ensures
      var s := StepChild(heap, e, c);
      var built := Complete(pushed, s.pending, s.key, ids);
      built.Ok? && Linked(heap, built.value.0, scope) && Clear(heap, built.value.0, c)
  {
    hide ArenaValid, ClassesShared, Owned, NodeShows, StepChild, AllEncoded, ChildrenOf, Targets, Convertible,
         Linked, Opens, BuildNode, Grows, RolesApart, OpenClass, AllClear;
    var s := StepChild(heap, e, c);
    EnterReady(heap, e, scope, c);
    EnterMeans(heap, e, c);
    assert s.key in Open(s.enc);
    BuildSucceeds(heap, pushed, scope, c, s.pending, s.key, s.children, ids);
    BuiltRole(pushed.graph, s.pending, ids);
    var key := if s.pending.PendingClass? then AsClass(s.key) else AsValue(s.key);
    LinkedRecord(heap, pushed, scope, key, BuildNode(pushed.graph, s.pending, ids).value);
  }

  lemma {:induction false} Traverse(heap: Heap, e: Enc, scope: iset<Spot>, c: Child)
    requires Sound(heap, e, scope) && Within(heap, scope, c)
    ensures
      var r := EncodeChild(heap, e, c);
      if r.Ok? then Linked(heap, r.value.0, scope) && Clear(heap, r.value.0, c) else r.error != NotAClassType
    decreases |Unmet(heap, e)|, 0, 0
  {
    hide Inv, StepChild, AllEncoded, Complete, Unmet, Linked, Within, Clear, ChildrenOf, Targets, Convertible, AllWithin,
         AllClear, Grows, RolesApart;
    StepClear(heap, e, scope, c);
    EnterMeetsOne(heap, e, c);
    var s := StepChild(heap, e, c);
    if s.Enter? {
      EnterReady(heap, e, scope, c);
      TraverseAll(heap, s.enc, scope, s.children);
      EncodeAllKeeps(heap, s.enc, s.children);
      var pushed := EncodeChildren(heap, s.enc, s.children);
      if pushed.Ok? {
        CompleteClear(heap, e, scope, c, pushed.value.0, pushed.value.1);
      }
    }
  }

  lemma ClearGrows(heap: Heap, a: Enc, b: Enc, c: Child)
    requires Clear(heap, a, c) && Grows(a, b) && Open(a) == Open(b)
    ensures Clear(heap, b, c)
  {
    hide Convertible, Targets;
  }

  lemma {:induction false} TraverseAll(heap: Heap, e: Enc, scope: iset<Spot>, cs: seq<Child>)
    requires Sound(heap, e, scope) && AllWithin(heap, scope, cs)
    ensures
      var r := EncodeChildren(heap, e, cs);
      if r.Ok? then Linked(heap, r.value.0, scope) && AllClear(heap, r.value.0, cs) else r.error != NotAClassType
    decreases |Unmet(heap, e)|, 1, |cs|
  {
    hide Inv, Unmet, EncodeChild, Linked, Within, Clear, Grows, AllEncoded, Encodes, RolesApart;
    if cs != [] {
      Traverse(heap, e, scope, cs[0]);
      EncodeKeeps(heap, e, cs[0]);
      var first := EncodeChild(heap, e, cs[0]);
      if first.Ok? {
        var e1 := first.value.0;
        UnmetShrinks(heap, e, e1);
        TraverseAll(heap, e1, scope, cs[1..]);
        EncodeAllKeeps(heap, e1, cs[1..]);
        var rest := EncodeChildren(heap, e1, cs[1..]);
        if rest.Ok? { ClearGrows(heap, e1, rest.value.0, cs[0]); }
      }
    }
  }

  // ---- what a push's outcome means --------------------------------------------

  /** On every heap, a circular reference is reported only for an object that reaches itself, and a conversion error only for something unconvertible. */
  lemma PushErrs(heap: Heap, e: Enc, v: Value)
    requires Inv(heap, e) && Open(e) == {}
    ensures
      var c := ValueChild(v);
      var r := EncodeChild(heap, e, c);
      && (r == Err(Circular) ==> Cyclic(heap, c))
      && (r == Err(Unconvertible) ==> Refused(heap, c))
  {
    hide Inv, EncodeChild, Cyclic, Refused;
    Errs(heap, e, {}, ValueChild(v));
  }

  /**
   * Where no object is met in both roles: an instance never fails for its
   * class, and success means that nothing is refused, that no cycle is made of
   * values alone, and that all the value reaches is finished.
   */
  lemma PushBounds(heap: Heap, e: Enc, scope: iset<Spot>, v: Value)
    requires Sound(heap, e, scope) && Open(e) == {} && Within(heap, scope, ValueChild(v))
    ensures
      var c := ValueChild(v);
      var r := EncodeChild(heap, e, c);
      && r != Err(NotAClassType)
      && (r.Ok? ==>
        && !Refused(heap, c) && !ValueCyclic(heap, c)
        && Sound(heap, r.value.0, scope) && Open(r.value.0) == {}
        && forall t, k :: t in Targets(heap, c) && Reaches(heap, t, k) ==> Settled(r.value.0, k))
  {
    hide Inv, EncodeChild, Linked, Targets, Convertible, BadBelow, ValueCycleBelow, Encodes, Grows, RolesApart, Reaches;
    var c := ValueChild(v);
    Traverse(heap, e, scope, c);
    EncodeKeeps(heap, e, c);
    var r := EncodeChild(heap, e, c);
    if r.Ok? {
      forall t | t in Targets(heap, c)
        ensures !BadBelow(heap, t) && !ValueCycleBelow(heap, t)
        ensures forall k :: Reaches(heap, t, k) ==> Settled(r.value.0, k)
      {
        SettledIsClean(heap, r.value.0, scope, t);
      }
    }
  }

  /** No class the child reaches reaches itself. */
  ghost predicate ClassesAcyclic(heap: Heap, c: Child)
  {
    forall t, k :: t in Targets(heap, c) && Reaches(heap, t, k) && k.AsClass? ==> !Descends(heap, k, k)
  }

  /** Every object on a cycle reaches itself. */
  lemma OnCycle(heap: Heap, r: Spot, p: seq<Spot>, i: nat)
    requires p != [] && i < |p| && Edge(heap, r, p[0]) && Leads(heap, p, p[0], r)
    ensures Descends(heap, p[i], p[i]) && Reaches(heap, r, p[i])
  {
    hide Edge;
    var x := p[i];
    var head, tail := p[..i + 1], p[i..];
    assert Leads(heap, head, p[0], x) && Leads(heap, tail, x, r);
    ReachesStep(heap, r, p[0], x);
    if i + 1 < |p| {
      var rest := p[i + 1..];
      assert Edge(heap, p[(i + 1) - 1], p[i + 1]);
      assert Leads(heap, rest, p[i + 1], r);
      ReachesThrough(heap, p[i + 1], r, x);
    }
  }

  /** Where no class on the way reaches itself, a cycle is one of values. */
  lemma CycleOfValues(heap: Heap, scope: iset<Spot>, c: Child, t: Spot)
    requires RolesApart(heap, scope) && Within(heap, scope, c)
    requires ClassesAcyclic(heap, c) && t in Targets(heap, c) && CycleBelow(heap, t)
    ensures ValueCycleBelow(heap, t)
  {
    hide Edge, Targets, Leads, Reaches, RolesApart;
    var r :| Reaches(heap, t, r) && Loops(heap, r);
    var b :| Descends(heap, r, b) && r.ref == b.ref;
    var k :| Edge(heap, r, k) && Reaches(heap, k, b);
    StaysWithin(heap, scope, t, r);
    ReachesStep(heap, r, k, b);
    ReachesThrough(heap, t, r, b);
    StaysWithin(heap, scope, t, b);
    OneRole(heap, scope, r, b);
    var p := PathOf(heap, k, r);
    forall i | 0 <= i < |p| ensures p[i].AsValue? {
      OnCycle(heap, r, p, i);
      ReachesThrough(heap, t, r, p[i]);
    }
    OnCycle(heap, r, p, |p| - 1);
    LastOf(heap, p, k, r);
    assert ValueLoop(heap, p, r);
  }

  lemma LastOf(heap: Heap, p: seq<Spot>, a: Spot, b: Spot)
    requires Leads(heap, p, a, b)
    ensures p != [] && p[|p| - 1] == b
  {
  }

  lemma StaysWithin(heap: Heap, scope: iset<Spot>, a: Spot, b: Spot)
    requires RolesApart(heap, scope) && a in scope && Reaches(heap, a, b)
    ensures b in scope
  {
    hide Edge;
    PathWithin(heap, scope, PathOf(heap, a, b), a, b);
  }

  lemma {:induction false} PathWithin(heap: Heap, scope: iset<Spot>, p: seq<Spot>, a: Spot, b: Spot)
    requires RolesApart(heap, scope) && a in scope && Leads(heap, p, a, b)
    ensures b in scope
  {
    hide Edge;
    if |p| > 1 {
      var q := p[1..];
      assert Edge(heap, p[0], p[1]);
      forall i | 0 < i < |q| ensures Edge(heap, q[i - 1], q[i]) { assert Edge(heap, p[i], p[i + 1]); }
      PathWithin(heap, scope, q, p[1], b);
    }
  }

  ghost function PathOf(heap: Heap, a: Spot, b: Spot): (p: seq<Spot>)
    requires Reaches(heap, a, b)
    ensures Leads(heap, p, a, b) && p != [] && p[0] == a
  {
    var p :| Leads(heap, p, a, b);
    p
  }

  /**
   * A push succeeds exactly when nothing it reaches is cyclic or refused, and
   * reports a circular reference exactly when something is cyclic, where nothing
   * is refused; provided no class it reaches reaches itself.
   */
  lemma PushSucceeds(heap: Heap, e: Enc, scope: iset<Spot>, v: Value)
    requires Sound(heap, e, scope) && Open(e) == {} && Within(heap, scope, ValueChild(v))
    requires ClassesAcyclic(heap, ValueChild(v))
    ensures
      var c := ValueChild(v);
      var r := EncodeChild(heap, e, c);
      && (r.Ok? <==> !Cyclic(heap, c) && !Refused(heap, c))
      && (!Refused(heap, c) ==> (r == Err(Circular) <==> Cyclic(heap, c)))
  {
    hide Inv, EncodeChild, Linked, Targets, Convertible, CycleBelow, BadBelow, ValueCycleBelow, RolesApart, ClassesAcyclic,
         Reaches, Within, Refused;
    var c := ValueChild(v);
    var r := EncodeChild(heap, e, c);
    assert r.Err? ==> r.error.Circular? || r.error.Unconvertible? || r.error.NotAClassType?;
    PushErrs(heap, e, v);
    PushBounds(heap, e, scope, v);
    if Cyclic(heap, c) {
      var t :| t in Targets(heap, c) && CycleBelow(heap, t);
      CycleOfValues(heap, scope, c, t);
    }
  }

  const FRESH := Enc([], map[], map[])

  lemma FreshSound(heap: Heap, scope: iset<Spot>)
    requires RolesApart(heap, scope)
    ensures Sound(heap, FRESH, scope) && Open(FRESH) == {}
  {
    hide Edge, HoldsBad, RolesApart;
  }

  ghost predicate ReachedFrom(heap: Heap, cs: seq<Child>, r: Spot)
  {
    exists i, t :: 0 <= i < |cs| && t in Targets(heap, cs[i]) && Reaches(heap, t, r)
  }

  /** What children reach is a part of the heap no edge leaves. */
  ghost function Reach(heap: Heap, cs: seq<Child>): iset<Spot>
  {
    iset r | ReachedFrom(heap, cs, r)
  }

  lemma ReachClosed(heap: Heap, cs: seq<Child>)
    ensures AllWithin(heap, Reach(heap, cs), cs)
    ensures forall r, k :: r in Reach(heap, cs) && Edge(heap, r, k) ==> k in Reach(heap, cs)
  {
    hide Edge, Targets, Reaches;
    forall i, t | 0 <= i < |cs| && t in Targets(heap, cs[i]) ensures t in Reach(heap, cs) { ReachesSelf(heap, t); }
    forall r, k | r in Reach(heap, cs) && Edge(heap, r, k) ensures k in Reach(heap, cs) {
      var i, t :| 0 <= i < |cs| && t in Targets(heap, cs[i]) && Reaches(heap, t, r);
      ReachesEdge(heap, t, r, k);
    }
  }

  /** Without class types the conditions on the heap hold by themselves. */
  lemma ClasslessHeap(heap: Heap, v: Value)
    requires forall r :: r in heap.shapes ==> !heap.shapes[r].Instance? && !heap.shapes[r].TypeMarker?
    ensures
      var c := ValueChild(v);
      RolesApart(heap, Reach(heap, [c])) && ClassesAcyclic(heap, c) && Within(heap, Reach(heap, [c]), c)
  {
    hide Reaches, ValueChildren, RolesApart;
    var c := ValueChild(v);
    var values := iset s: Spot | s.AsValue?;
    ValuesClosed(heap, values);
    ReachClosed(heap, [c]);
    assert Within(heap, Reach(heap, [c]), [c][0]);
    forall t, k | t in Targets(heap, c) && Reaches(heap, t, k) ensures k.AsValue? { StaysWithin(heap, values, t, k); }
    RolesOf(heap, Reach(heap, [c]));
  }

  lemma ValuesClosed(heap: Heap, values: iset<Spot>)
    requires values == iset s: Spot | s.AsValue?
    requires forall r :: r in heap.shapes ==> !heap.shapes[r].Instance? && !heap.shapes[r].TypeMarker?
    ensures RolesApart(heap, values)
  {
  }

  lemma RolesOf(heap: Heap, scope: iset<Spot>)
    requires forall r, k :: r in scope && Edge(heap, r, k) ==> k in scope
    requires forall s :: s in scope ==> s.AsValue?
    ensures RolesApart(heap, scope)
  {
    hide Edge;
  }

  /** A class met while its own attributes are being pushed is copied without them, never refused. */
  lemma ClassInProgress(heap: Heap, e: Enc, c: Ref)
    requires c in Open(e) && c in heap.classes
    ensures EncodeChild(heap, e, ClassChild(c)) ==
            Ok((e.(graph := e.graph + [ClassNode(heap.classes[c].header, [])]), |e.graph|))
  {
  }

  lemma {:induction false} EncodeTwo(heap: Heap, e: Enc, cs: seq<Child>)
    requires |cs| <= 2
    ensures |cs| == 1 ==>
      var a := EncodeChild(heap, e, cs[0]);
      EncodeChildren(heap, e, cs) == if a.Err? then Err(a.error) else Ok((a.value.0, [a.value.1]))
    ensures |cs| == 2 ==>
      var a := EncodeChild(heap, e, cs[0]);
      EncodeChildren(heap, e, cs) ==
      if a.Err? then Err(a.error)
      else var b := EncodeChild(heap, a.value.0, cs[1]);
           if b.Err? then Err(b.error) else Ok((b.value.0, [a.value.1, b.value.1]))
    decreases |cs|
  {
    hide EncodeChild;
    if cs != [] {
      var a := EncodeChild(heap, e, cs[0]);
      if a.Ok? {
        EncodeTwo(heap, a.value.0, cs[1..]);
        var rest := EncodeChildren(heap, a.value.0, cs[1..]);
        assert EncodeChildren(heap, e, cs) ==
               if rest.Err? then Err(rest.error) else Ok((rest.value.0, [a.value.1] + rest.value.1));
        if |cs| == 1 {
          assert rest == Ok((a.value.0, [])) && [a.value.1] + [] == [a.value.1];
        } else {
          var b := EncodeChild(heap, a.value.0, cs[1]);
          assert cs[1..][0] == cs[1];
          if b.Ok? { assert [a.value.1] + [b.value.1] == [a.value.1, b.value.1]; }
        }
      }
    }
  }

  const LOOP_HEADER := Header(7, 0, true, false)

  /** A class, reached by a type marker, whose attribute is an instance of itself. */
  const LOOP := Heap(map[0 := TypeMarker(1), 2 := Instance(1, 9, [])],
                     map[1 := ClassShape(LOOP_HEADER, [LeafValue(Null), Object(2)])])

  lemma LoopSteps(e: Enc)
    ensures 2 !in e.memo ==>
      StepChild(LOOP, e, ValueChild(Object(2))) ==
      Enter(e.(memo := e.memo[2 := InProgress]), PendingInstance(9), 2, [ClassChild(1)])
    ensures 1 !in e.memo ==>
      forall c :: c in {ClassChild(1), ValueChild(Object(0))} ==>
        StepChild(LOOP, e, c) ==
        Enter(e.(memo := e.memo[1 := InProgress]), PendingClass(LOOP_HEADER), 1,
              [ValueChild(LeafValue(Null)), ValueChild(Object(2))])
  {
    var none: seq<Value> := [];
    assert ValueChildren(none) == [];
    assert ValueChildren(LOOP.classes[1].attrs) == [ValueChild(LeafValue(Null)), ValueChild(Object(2))];
  }

  /** Pushing the instance first runs into it again. */
  lemma LoopFromInstance()
    ensures EncodeChild(LOOP, FRESH, ValueChild(Object(2))) == Err(Circular)
  {
    LoopSteps(FRESH);
    var e1 := FRESH.(memo := map[2 := InProgress]);
    LoopSteps(e1);
    EncodeTwo(LOOP, e1, [ClassChild(1)]);
    var e2 := e1.(memo := e1.memo[1 := InProgress]);
    EncodeTwo(LOOP, e2, [ValueChild(LeafValue(Null)), ValueChild(Object(2))]);
  }

  /** Pushing the class first succeeds, its inner mention an attribute-less copy. */
  lemma LoopFromClass()
    ensures
      var r := EncodeChild(LOOP, FRESH, ValueChild(Object(0)));
      && r.Ok? && r.value.1 == 3
      && r.value.0.graph == [LeafNode(NoneLeaf), ClassNode(LOOP_HEADER, []), InstanceNode(1, 9, []),
                             ClassNode(LOOP_HEADER, [(0, 2)])]
  {
    LoopSteps(FRESH);
    var e1 := FRESH.(memo := map[1 := InProgress]);
    EncodeTwo(LOOP, e1, [ValueChild(LeafValue(Null)), ValueChild(Object(2))]);
    var e2 := e1.(graph := [LeafNode(NoneLeaf)]);
    assert e1.graph + [LeafNode(NoneLeaf)] == e2.graph;
    assert EncodeChild(LOOP, e1, ValueChild(LeafValue(Null))) == Ok((e2, 0));
    LoopSteps(e2);
    var e3 := e2.(memo := e2.memo[2 := InProgress]);
    ClassInProgress(LOOP, e3, 1);
    EncodeTwo(LOOP, e3, [ClassChild(1)]);
    var e4 := e3.(graph := e3.graph + [ClassNode(LOOP_HEADER, [])]);
    var e5 := Record(e4, 2, InstanceNode(1, 9, []));
    assert EncodeChild(LOOP, e2, ValueChild(Object(2))) == Ok((e5, 2));
    assert IdPairs([0, 2]) == [(0, 2)];
  }

  /** So with a class that reaches itself success no longer means the absence of cycles. */
  lemma ClassHoldsItself()
    ensures Descends(LOOP, AsValue(2), AsValue(2)) && Cyclic(LOOP, ValueChild(Object(0)))
    ensures !ClassesAcyclic(LOOP, ValueChild(Object(0)))
    ensures EncodeChild(LOOP, FRESH, ValueChild(Object(0))).Ok?
    ensures EncodeChild(LOOP, FRESH, ValueChild(Object(2))) == Err(Circular)
  {
    LoopFromInstance();
    LoopFromClass();
    hide EncodeChild;
    var x, c := AsValue(2), AsClass(1);
    assert ChildrenOf(LOOP, x)[0] == ClassChild(1) && ChildrenOf(LOOP, c)[1] == ValueChild(Object(2));
    assert Edge(LOOP, x, c) && Edge(LOOP, c, x);
    ReachesSelf(LOOP, x);
    ReachesSelf(LOOP, c);
    ReachesStep(LOOP, c, x, x);
    ReachesStep(LOOP, x, c, c);
    assert c in Targets(LOOP, ValueChild(Object(0)));
  }

  /** A plain object met first as a value and then as the class of an instance. */
  const TWICE := Heap(map[0 := Container(List, [Object(1), Object(2)]), 1 := Container(PlainObject, []), 2 := Instance(1, 9, [])],
                      map[1 := ClassShape(LOOP_HEADER, [])])

  /** An object met in both roles keeps the node of the first, so the instance fails for its class. */
  lemma BothRoles()
    ensures EncodeChild(TWICE, FRESH, ValueChild(Object(0))) == Err(NotAClassType)
  {
    var none: seq<Value> := [];
    assert ValueChildren(none) == [];
    var kids := [ValueChild(Object(1)), ValueChild(Object(2))];
    assert ValueChildren(TWICE.shapes[0].items) == kids;
    var e1 := FRESH.(memo := map[0 := InProgress]);
    EncodeTwo(TWICE, e1, kids);
    var e2 := e1.(memo := e1.memo[1 := InProgress]);
    var e3 := Record(e2, 1, DictNode([]));
    assert EncodeChildren(TWICE, e2, []) == Ok((e2, []));
    assert EncodeChild(TWICE, e1, kids[0]) == Ok((e3, 0));
    var e4 := e3.(memo := e3.memo[2 := InProgress]);
    assert [ClassChild(1)] + ValueChildren(none) == [ClassChild(1)];
    EncodeTwo(TWICE, e4, [ClassChild(1)]);
    assert EncodeChild(TWICE, e4, ClassChild(1)) == Ok((e4, 0));
    assert EncodeChild(TWICE, e3, kids[1]) == Err(NotAClassType);
  }
}
