/** The registry of API objects: one table of objects shared by many managers, each with a set of the ids it owns. */
module ObjectRegistry {
  /** An API object; a menu that is on screen delays its own destruction. */
  datatype Object = Object(kind: string, delay: bool, pending: bool)

  /** A type without a class of its own is logged and built as a plain object. */
  function KindOf(type_: string): string {
    if type_ in {"Menu", "MenuItem", "Tray", "MediaRecorder"} then type_ else "Base"
  }

  // -------------------------------------------------------------------------
  // The registry as a state machine

  /** `last` is the latest id handed out, `created` the ids ever used for an object. */
  datatype World<M> = World(objects: map<int, Object>, last: int, created: set<int>, owned: map<M, set<int>>)

  datatype Act<M> =
    | Issue
    | Birth(m: M)
    | Death(m: M)
    | Create(m: M, id: int, type_: string)
    | Dispose(m: M, id: int)
    | Hold(id: int)
    | Release(m: M, id: int)
    | ClearAll

  function Drop<M>(w: World<M>, m: M, id: int): World<M>
    requires m in w.owned
  {
    if id in w.objects && w.objects[id].delay then
      w.(objects := w.objects[id := w.objects[id].(pending := true)])
    else
      w.(objects := w.objects - {id}, owned := w.owned[m := w.owned[m] - {id}])
  }

  /** What callers keep to: an id is issued before it is used, and is used for one object only. */
  predicate Allowed<M(==)>(w: World<M>, act: Act<M>) {
    match act
    case Issue => true
    case Birth(m) => m !in w.owned
    case Death(m) => m in w.owned
    case Create(m, id, _) => m in w.owned && 1 <= id <= w.last && id !in w.created
    case Dispose(m, _) => m in w.owned
    case Hold(id) => id in w.objects
    case Release(m, id) => id in w.objects && m in w.owned && id in w.owned[m]
    case ClearAll => true
  }

  function Step<M(==)>(w: World<M>, act: Act<M>): World<M>
    requires act.Death? || act.Create? || act.Dispose? || act.Release? ==> act.m in w.owned
    requires act.Hold? || act.Release? ==> act.id in w.objects
  {
    match act
    case Issue => w.(last := w.last + 1)
    case Birth(m) => w.(owned := w.owned[m := {}])
    case Death(m) => w.(objects := w.objects - w.owned[m], owned := w.owned - {m})
    case Create(m, id, type_) =>
      w.(objects := w.objects[id := Object(KindOf(type_), false, false)], created := w.created + {id},
         owned := w.owned[m := w.owned[m] + {id}])
    case Dispose(m, id) => Drop(w, m, id)
    case Hold(id) => w.(objects := w.objects[id := w.objects[id].(delay := true)])
    case Release(m, id) =>
      var free := w.(objects := w.objects[id := w.objects[id].(delay := false)]);
      if w.objects[id].pending then Drop(free, m, id) else free
    case ClearAll => w.(objects := map[])
  }

  predicate Disjoint<M(==)>(owned: map<M, set<int>>) {
    forall a, b :: a in owned && b in owned && a != b ==> owned[a] !! owned[b]
  }

  ghost predicate Owned<M>(w: World<M>, id: int) {
    exists m :: m in w.owned && id in w.owned[m]
  }

  ghost predicate Safe<M>(w: World<M>) {
    && (forall id :: id in w.created ==> 1 <= id <= w.last)
    && (forall m :: m in w.owned ==> w.owned[m] <= w.created)
    && Disjoint(w.owned)
    && (forall id :: id in w.objects ==> Owned(w, id))
  }

  lemma OwnersKept<M>(before: World<M>, after: World<M>, gone: set<int>)
    requires Safe(before) && forall id :: id in after.objects ==> id in before.objects && id !in gone
    requires forall m :: m in before.owned && !(before.owned[m] <= gone) ==>
                           m in after.owned && before.owned[m] - gone <= after.owned[m]
    ensures forall id :: id in after.objects ==> Owned(after, id)
  {
    forall id | id in after.objects
      ensures Owned(after, id)
    {
      assert Owned(before, id);
      var m :| m in before.owned && id in before.owned[m];
      assert m in after.owned && id in after.owned[m];
    }
  }

  lemma DropKeepsSafe<M>(w: World<M>, m: M, id: int)
    requires Safe(w) && m in w.owned
    ensures Safe(Drop(w, m, id))
  {
    var after := Drop(w, m, id);
    if after.owned == w.owned {
      OwnersKept(w, after, {});
    } else {
      OwnersKept(w, after, {id});
    }
  }

  lemma CreateKeepsSafe<M>(w: World<M>, m: M, id: int, type_: string)
    requires Safe(w) && m in w.owned && 1 <= id <= w.last && id !in w.created
    ensures Safe(Step(w, Create(m, id, type_)))
  {
    var after := Step(w, Create(m, id, type_));
    forall i | i in after.objects
      ensures Owned(after, i)
    {
      if i == id {
        assert id in after.owned[m];
      } else {
        assert Owned(w, i);
        var o :| o in w.owned && i in w.owned[o];
        assert i in after.owned[o];
      }
    }
  }

  lemma StepKeepsSafe<M>(w: World<M>, act: Act<M>)
    requires Safe(w) && Allowed(w, act)
    ensures Safe(Step(w, act))
  {
    match act
    case Issue => OwnersKept(w, Step(w, act), {});
    case Birth(_) => OwnersKept(w, Step(w, act), {});
    case Death(m) => OwnersKept(w, Step(w, act), w.owned[m]);
    case Create(m, id, type_) => CreateKeepsSafe(w, m, id, type_);
    case Dispose(m, id) => DropKeepsSafe(w, m, id);
    case Hold(_) => OwnersKept(w, Step(w, act), {});
    case Release(m, id) =>
      var free := w.(objects := w.objects[id := w.objects[id].(delay := false)]);
      OwnersKept(w, free, {});
      if w.objects[id].pending {
        DropKeepsSafe(free, m, id);
      }
    case ClearAll =>
  }

  // -------------------------------------------------------------------------
  // Whole runs

  function Start<M>(): World<M> {
    World(map[], 0, {}, map[])
  }

  ghost predicate IsRun<M>(w: World<M>, acts: seq<Act<M>>)
    decreases |acts|
  {
    acts != [] ==> Allowed(w, acts[0]) && IsRun(Step(w, acts[0]), acts[1..])
  }

  ghost function After<M>(w: World<M>, acts: seq<Act<M>>): World<M>
    requires IsRun(w, acts)
    decreases |acts|
  {
    if acts == [] then w else After(Step(w, acts[0]), acts[1..])
  }

  lemma {:induction false} RunKeepsSafe<M>(w: World<M>, acts: seq<Act<M>>)
    requires Safe(w) && IsRun(w, acts)
    ensures Safe(After(w, acts))
    decreases |acts|
  {
    if acts != [] {
      StepKeepsSafe(w, acts[0]);
      RunKeepsSafe(Step(w, acts[0]), acts[1..]);
    }
  }

  /** In every reachable state a registered object has exactly one live owner, and the next id is unused. */
  lemma EveryObjectHasOneOwner<M>(acts: seq<Act<M>>)
    requires IsRun(Start<M>(), acts)
    ensures var w := After(Start<M>(), acts);
            && (forall id :: id in w.objects ==> 1 <= id <= w.last && Owned(w, id))
            && (forall id, a, b :: a in w.owned && b in w.owned && id in w.owned[a] && id in w.owned[b] ==> a == b)
            && w.last + 1 !in w.created && w.last + 1 !in w.objects
  {
    RunKeepsSafe(Start<M>(), acts);
    var w := After(Start<M>(), acts);
    forall id | id in w.objects
      ensures id in w.created
    {
      assert Owned(w, id);
    }
  }

  /** Destroying a manager removes its registered objects and nobody else's. */
  lemma DeathRemovesOwn<M>(acts: seq<Act<M>>, m: M)
    requires IsRun(Start<M>(), acts) && m in After(Start<M>(), acts).owned
    ensures var w := After(Start<M>(), acts);
            var after := Step(w, Death(m));
            && (forall id :: id in w.owned[m] ==> id !in after.objects)
            && (forall o, id :: o in w.owned && o != m && id in w.owned[o] && id in w.objects ==>
                                  id in after.objects && after.objects[id] == w.objects[id])
            && after.owned == w.owned - {m}
  {
    RunKeepsSafe(Start<M>(), acts);
    var w := After(Start<M>(), acts);
    forall o, id | o in w.owned && o != m && id in w.owned[o] && id in w.objects
      ensures id !in w.owned[m]
    {
      assert w.owned[o] !! w.owned[m];
    }
  }

  /** A new object keeps ownership disjoint exactly when no other manager still lists its id. */
  lemma CreateIsDisjointExactly<M>(w: World<M>, m: M, id: int, type_: string)
    requires Safe(w) && m in w.owned
    ensures Disjoint(Step(w, Create(m, id, type_)).owned) <==> forall o :: o in w.owned && o != m ==> id !in w.owned[o]
  {
    var after := Step(w, Create(m, id, type_)).owned;
    if o :| o in w.owned && o != m && id in w.owned[o] {
      assert id in after[o] && id in after[m];
    }
  }

  /**
    An id used twice can cost a manager its object: it disposes of the object of another one,
    uses the id for an object of its own, and loses that when the other manager dies.
   */
  lemma ReuseLosesAnObject<M>(a: M, b: M)
    requires a != b
    ensures var w0 := Step(Step(Step(Start<M>(), Issue), Birth(a)), Birth(b));
            var w := Step(Step(Step(w0, Create(a, 1, "Tray")), Dispose(b, 1)), Create(b, 1, "Tray"));
            1 in w.objects && 1 in w.owned[b] && 1 !in Step(w, Death(a)).objects
  {
    var w0 := Step(Step(Step(Start<M>(), Issue), Birth(a)), Birth(b));
    var w1 := Step(w0, Create(a, 1, "Tray"));
    assert w1.owned[a] == {1} && w1.owned[b] == {} && !w1.objects[1].delay;
    var w2 := Step(w1, Dispose(b, 1));
    assert w2.owned[a] == {1};
  }

  /** Acts that leave a held object alone: only its release, its owner's death or a cleared registry can end it. */
  predicate Spares<M(==)>(act: Act<M>, owner: M, id: int) {
    !act.ClearAll? && act != Death(owner) && !(act.Release? && act.id == id)
  }

  /** A held object stays resolvable through any run that spares it, and remembers whether it was disposed of. */
  lemma {:induction false} HeldStaysResolvable<M>(w: World<M>, acts: seq<Act<M>>, owner: M, id: int)
    requires Safe(w) && IsRun(w, acts) && forall k :: 0 <= k < |acts| ==> Spares(acts[k], owner, id)
    requires id in w.objects && w.objects[id].delay && owner in w.owned && id in w.owned[owner]
    ensures var after := After(w, acts);
            && id in after.objects && after.objects[id].delay && owner in after.owned && id in after.owned[owner]
            && (after.objects[id].pending <==>
                w.objects[id].pending || exists k :: 0 <= k < |acts| && acts[k].Dispose? && acts[k].id == id)
    decreases |acts|
  {
    if acts != [] {
      var next := Step(w, acts[0]);
      StepKeepsSafe(w, acts[0]);
      assert Spares(acts[0], owner, id);
      assert id in w.created;
      assert id in next.objects && next.objects[id].delay && owner in next.owned && id in next.owned[owner] by {
        if acts[0].Death? {
          assert w.owned[acts[0].m] !! w.owned[owner];
        }
      }
      assert next.objects[id].pending <==> w.objects[id].pending || (acts[0].Dispose? && acts[0].id == id);
      forall k | 0 <= k < |acts[1..]|
        ensures Spares(acts[1..][k], owner, id)
      {
        assert acts[1..][k] == acts[k + 1];
      }
      HeldStaysResolvable(next, acts[1..], owner, id);
      Shifted(acts, id);
    }
  }

  lemma Shifted<M>(acts: seq<Act<M>>, id: int)
    requires acts != []
    ensures (exists k :: 0 <= k < |acts| && acts[k].Dispose? && acts[k].id == id) <==>
            (acts[0].Dispose? && acts[0].id == id) ||
            exists k :: 0 <= k < |acts[1..]| && acts[1..][k].Dispose? && acts[1..][k].id == id
  {
    if k :| 0 <= k < |acts| && acts[k].Dispose? && acts[k].id == id {
      if k > 0 {
        assert acts[1..][k - 1] == acts[k];
      }
    }
    if k :| 0 <= k < |acts[1..]| && acts[1..][k].Dispose? && acts[1..][k].id == id {
      assert acts[k + 1] == acts[1..][k];
    }
  }

  /** Letting go of a held object frees it exactly when it was disposed of meanwhile. */
  lemma {:induction false} ReleaseFreesDisposed<M>(w: World<M>, acts: seq<Act<M>>, owner: M, id: int)
    requires Safe(w) && IsRun(w, acts) && forall k :: 0 <= k < |acts| ==> Spares(acts[k], owner, id)
    requires id in w.objects && !w.objects[id].pending && w.objects[id].delay && owner in w.owned && id in w.owned[owner]
    ensures var after := After(w, acts);
            && Allowed(after, Release(owner, id))
            && (id in Step(after, Release(owner, id)).objects <==>
                forall k :: 0 <= k < |acts| ==> acts[k].Dispose? ==> acts[k].id != id)
  {
    HeldStaysResolvable(w, acts, owner, id);
  }

  // -------------------------------------------------------------------------
  // Dispatcher hosts

  /** `DispatcherHost::OnDeallocateObject`: the same registry, where nothing is ever delayed. */
  function DropNow<M>(w: World<M>, m: M, id: int): World<M>
    requires m in w.owned
  {
    w.(objects := w.objects - {id}, owned := w.owned[m := w.owned[m] - {id}])
  }

  /** In a run where no menu is held, a manager disposes of objects exactly as a dispatcher host does, and at once. */
  lemma HostDisposesAtOnce<M>(acts: seq<Act<M>>, m: M, id: int)
    requires IsRun(Start<M>(), acts) && forall k :: 0 <= k < |acts| ==> !acts[k].Hold?
    requires m in After(Start<M>(), acts).owned
    ensures Step(After(Start<M>(), acts), Dispose(m, id)) == DropNow(After(Start<M>(), acts), m, id)
  {
    NothingDelayed(Start<M>(), acts);
  }

  lemma {:induction false} NothingDelayed<M>(w: World<M>, acts: seq<Act<M>>)
    requires IsRun(w, acts) && forall k :: 0 <= k < |acts| ==> !acts[k].Hold?
    requires forall id :: id in w.objects ==> !w.objects[id].delay
    ensures forall id :: id in After(w, acts).objects ==> !After(w, acts).objects[id].delay
    decreases |acts|
  {
    if acts != [] {
      var rest := acts[1..];
      assert forall k :: 0 <= k < |rest| ==> rest[k] == acts[k + 1];
      NothingDelayed(Step(w, acts[0]), rest);
    }
  }

  // -------------------------------------------------------------------------
  // The objects of the program

  /** The static part of the manager: the registry and the id counter. */
  class Shared {
    var objects: map<int, Object>
    var nextObjectId: int

    ghost var created: set<int>
    ghost var live: set<ObjectManager>

    ghost predicate Valid()
      reads this, live
    {
      forall m :: m in live ==> m.shared == this
    }

    ghost function Now(): World<ObjectManager>
      reads this, live
    {
      World(objects, nextObjectId, created, map m | m in live :: m.objects)
    }

    constructor ()
      ensures Valid() && Now() == Start()
    {
      objects, nextObjectId, created, live := map[], 0, {}, {};
    }

    /** `AllocateId` */
    method AllocateId() returns (id: int)
      requires Valid()
      modifies this`nextObjectId
      ensures Valid() && Now() == Step(old(Now()), Issue) && id == Now().last
    {
      nextObjectId := nextObjectId + 1;
      id := nextObjectId;
    }

    /** `GetApiObject` */
    method GetApiObject(id: int) returns (found: bool, object_: Object)
      ensures found <==> id in objects
      ensures found ==> object_ == objects[id]
    {
      object_ := Object("Base", false, false);
      found := id in objects;
      if found {
        object_ := objects[id];
      }
    }

    method ClearObjectRegistry()
      requires Valid()
      modifies this`objects
      ensures Valid() && Now() == Step(old(Now()), ClearAll)
    {
      objects := map[];
    }

    method SetDelayDestruction(id: int, delay: bool)
      requires Valid() && id in objects
      modifies this`objects
      ensures Valid() && objects == old(objects)[id := old(objects)[id].(delay := delay)]
    {
      objects := objects[id := objects[id].(delay := delay)];
    }
  }

  lemma NonEmpty(s: set<int>)
    requires s != {}
    ensures exists id :: id in s
  {
    assert (forall id :: id !in s) ==> s == {};
  }

  class ObjectManager {
    const shared: Shared
    var objects: set<int>

    constructor (shared: Shared)
      requires shared.Valid()
      modifies shared`live
      ensures this.shared == shared && shared.Valid() && this in shared.live
      ensures shared.Now() == Step(old(shared.Now()), Birth(this))
    {
      this.shared := shared;
      objects := {};
      new;
      shared.live := shared.live + {this};
    }

    ghost predicate Valid()
      reads this, shared, shared.live
    {
      shared.Valid() && this in shared.live
    }

    method OnAllocateObject(id: int, type_: string)
      requires Valid()
      modifies this`objects, shared`objects, shared`created
      ensures Valid() && shared.Now() == Step(old(shared.Now()), Create(this, id, type_))
    {
      if type_ == "Menu" || type_ == "MenuItem" || type_ == "Tray" || type_ == "MediaRecorder" {
        shared.objects := shared.objects[id := Object(type_, false, false)];
      } else {
        shared.objects := shared.objects[id := Object("Base", false, false)];
      }
      shared.created := shared.created + {id};
      objects := objects + {id};
    }

    method OnDeallocateObject(id: int)
      requires Valid()
      modifies this`objects, shared`objects
      ensures Valid() && shared.Now() == Step(old(shared.Now()), Dispose(this, id))
    {
      if id in shared.objects {
        if shared.objects[id].delay {
          shared.objects := shared.objects[id := shared.objects[id].(pending := true)];
          return;
        }
        shared.objects := shared.objects - {id};
      }
      objects := objects - {id};
    }

    /** `Menu::Popup`: the menu outlives its script object while it is on screen. */
    method ShowMenu(id: int)
      requires Valid() && id in shared.objects
      modifies shared`objects
      ensures Valid() && shared.Now() == Step(old(shared.Now()), Hold(id))
    {
      shared.SetDelayDestruction(id, true);
    }

    method MenuClosed(id: int)
      requires Valid() && id in shared.objects
      modifies this`objects, shared`objects
      ensures Valid() && shared.Now() == Step(old(shared.Now()), Release(this, id))
    {
      shared.SetDelayDestruction(id, false);
      if shared.objects[id].pending {
        OnDeallocateObject(id);
      }
    }

    /** `~ObjectManager` */
    method Destroy()
      requires Valid()
      modifies shared`objects, shared`live
      ensures shared.Valid() && shared.Now() == Step(old(shared.Now()), Death(this))
    {
      var left := objects;
      while left != {}
        invariant left <= objects
        invariant shared.objects == old(shared.objects) - (objects - left)
        invariant shared.live == old(shared.live)
        decreases left
      {
        NonEmpty(left);
        var id :| id in left;
        if id in shared.objects {
          shared.objects := shared.objects - {id};
        }
        left := left - {id};
      }
      shared.live := shared.live - {this};
    }
  }
}
