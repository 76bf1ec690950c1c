/** The life of one object id, told by the acts that concern it alone. */
module ObjectFates {
  import opened ObjectRegistry

  /** Which manager lists the id, if any. */
  datatype Listing<M> = Nobody | By(manager: M)

  /** The id is not registered, or it is: of which class, on screen or not, disposed of meanwhile or not. */
  datatype Life = Absent | Present(kind: string, held: bool, disposed: bool)

  datatype Fate<M> = Fate(listing: Listing<M>, life: Life)

  /** The class an object of this type gets. */
  function ClassOf(type_: string): string {
    if type_ == "Menu" then "Menu"
    else if type_ == "MenuItem" then "MenuItem"
    else if type_ == "Tray" then "Tray"
    else if type_ == "MediaRecorder" then "MediaRecorder"
    else "Base"
  }

  function Follow<M(==)>(fate: Fate<M>, act: Act<M>, id: int): Fate<M> {
    match act
    case Create(m, i, type_) => if i == id then Fate(By(m), Present(ClassOf(type_), false, false)) else fate
    case Dispose(m, i) =>
      if i != id then fate
      else if fate.life.Present? && fate.life.held then fate.(life := fate.life.(disposed := true))
      else Fate(if fate.listing == By(m) then Nobody else fate.listing, Absent)
    case Hold(i) => if i == id && fate.life.Present? then fate.(life := fate.life.(held := true)) else fate
    case Release(_, i) =>
      if i != id || fate.life.Absent? then fate
      else if fate.life.disposed then Fate(Nobody, Absent)
      else fate.(life := fate.life.(held := false))
    case Death(m) => if fate.listing == By(m) then Fate(Nobody, Absent) else fate
    case ClearAll => fate.(life := Absent)
    case Issue => fate
    case Birth(_) => fate
  }

  function FateAfter<M(==)>(fate: Fate<M>, acts: seq<Act<M>>, id: int): Fate<M>
    decreases |acts|
  {
    if acts == [] then fate else FateAfter(Follow(fate, acts[0], id), acts[1..], id)
  }

  predicate TellsLife<M>(w: World<M>, fate: Fate<M>, id: int) {
    match fate.life
    case Absent => id !in w.objects
    case Present(kind, held, disposed) =>
      id in w.objects && w.objects[id] == Object(kind, held, disposed) && (disposed ==> held) && fate.listing.By?
  }

  predicate TellsListing<M(==)>(w: World<M>, fate: Fate<M>, id: int) {
    && (forall m :: m in w.owned ==> (id in w.owned[m] <==> fate.listing == By(m)))
    && (fate.listing.By? ==> fate.listing.manager in w.owned)
  }

  lemma ClassesAgree(type_: string)
    ensures KindOf(type_) == ClassOf(type_)
  {
  }

  lemma StepTells<M>(w: World<M>, fate: Fate<M>, act: Act<M>, id: int)
    requires Safe(w) && Allowed(w, act) && TellsLife(w, fate, id) && TellsListing(w, fate, id)
    ensures TellsLife(Step(w, act), Follow(fate, act, id), id) && TellsListing(Step(w, act), Follow(fate, act, id), id)
  {
    hide KindOf, ClassOf;
    if act.Create? {
      ClassesAgree(act.type_);
    }
  }

  lemma {:induction false} RunTells<M>(w: World<M>, fate: Fate<M>, acts: seq<Act<M>>, id: int)
    requires Safe(w) && IsRun(w, acts) && TellsLife(w, fate, id) && TellsListing(w, fate, id)
    ensures var w', last := After(w, acts), FateAfter(fate, acts, id);
            TellsLife(w', last, id) && TellsListing(w', last, id)
    decreases |acts|
  {
    hide Safe, TellsLife, TellsListing, Step, Follow;
    if acts != [] {
      StepKeepsSafe(w, acts[0]);
      StepTells(w, fate, acts[0], id);
      RunTells(Step(w, acts[0]), Follow(fate, acts[0], id), acts[1..], id);
    }
  }

  /**
    In every run an id is registered, and listed by a manager, exactly as its own acts say, with the
    class of its type; acts about other ids make no difference, save the death of its manager and
    the clearing of the registry, which leaves the lists as they are. What is disposed of is held.
   */
  lemma EveryFateIsTold<M>(acts: seq<Act<M>>, id: int)
    requires IsRun(Start<M>(), acts)
    ensures var w, fate := After(Start<M>(), acts), FateAfter(Fate(Nobody, Absent), acts, id);
            TellsLife(w, fate, id) && TellsListing(w, fate, id)
  {
    hide TellsLife, TellsListing, Step, FateAfter, Allowed, Safe;
    NothingYet<M>(id);
    RunTells(Start<M>(), Fate(Nobody, Absent), acts, id);
  }

  lemma NothingYet<M>(id: int)
    ensures var w, fate: Fate<M> := Start<M>(), Fate(Nobody, Absent);
            Safe(w) && TellsLife(w, fate, id) && TellsListing(w, fate, id)
  {
  }

  // -------------------------------------------------------------------------
  // Ids

  function Issued<M>(acts: seq<Act<M>>): nat {
    if acts == [] then 0 else (if acts[0].Issue? then 1 else 0) + Issued(acts[1..])
  }

  /** Ids are handed out one after the other: the latest is the number of ids handed out. */
  lemma {:induction false} IdsAreCounted<M>(w: World<M>, acts: seq<Act<M>>)
    requires IsRun(w, acts)
    ensures After(w, acts).last == w.last + Issued(acts)
    decreases |acts|
  {
    if acts != [] {
      IdsAreCounted(Step(w, acts[0]), acts[1..]);
    }
  }
}
