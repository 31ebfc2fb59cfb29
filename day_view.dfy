/**
 * One day of the local logbook: its heading, its routines listed newest order
 * first, adding a routine, deleting one together with everything under it, and
 * which routine card is expanded.
 */
module DayView {
  import opened Wrappers
  import opened Text
  import opened Calendar
  import opened Dates
  import opened LocalDb
  import Seqs

  const DayNames := ["Sunday", "Monday", "Tuesday", "Wednesday", "Thursday", "Friday", "Saturday"]

  const MonthNames := ["Jan", "Feb", "Mar", "Apr", "May", "Jun", "Jul", "Aug", "Sep", "Oct", "Nov", "Dec"]

  /**
   * `formatDate(dateStr)`: weekday, short month and day of `new Date(y, m - 1, d)`;
   * an Invalid Date reads `undefined` from both name tables and `NaN` as its day.
   */
  function FormatDate(dateStr: string): string
  {
    match DateOfString(dateStr)
    case None => "undefined, undefined NaN"
    case Some(d) => DayNames[DayOfWeek(d)] + ", " + MonthNames[d.month] + " " + IntToString(d.day)
  }

  /** The heading of a day's own `YYYY-MM-DD` string names that day's weekday, month and day of the month. */
  lemma FormatDateOfDay(d: Date)
    requires Valid(d) && d.year >= 100
    ensures FormatDate(ToLocalDateStr(d)) == DayNames[DayOfWeek(d)] + ", " + MonthNames[d.month] + " " + NatToString(d.day)
  {
    DateOfLocalDateStr(d);
  }

  // ---------------------------------------------------------------- listing

  function ByOrder(a: Routine, b: Routine): bool
  {
    a.order <= b.order
  }

  /** `where('date').equals(date).sortBy('order')`, then `slice().reverse()`: the cards in display order. */
  function Displayed(routines: seq<Routine>, date: string): seq<Routine>
  {
    Seqs.Reverse(Seqs.SortBy(ByOrder, Seqs.Filter(OnDate(date), routines)))
  }

  /** Every routine of the day is shown once, and the cards run from the highest order down. */
  lemma DisplayedDescending(routines: seq<Routine>, date: string)
    ensures var shown := Displayed(routines, date);
      && multiset(shown) == multiset(Seqs.Filter(OnDate(date), routines))
      && (forall i, j :: 0 <= i < j < |shown| ==> shown[i].order >= shown[j].order)
      && (forall i :: 0 <= i < |shown| ==> shown[i].date == date)
  {
    var on := Seqs.Filter(OnDate(date), routines);
    var sorted := Seqs.SortBy(ByOrder, on);
    Seqs.SortPermutes(ByOrder, on);
    Seqs.SortSorted(ByOrder, on);
    var shown := Displayed(routines, date);
    assert multiset(shown) == multiset(sorted) by {
      ReversePermutes(sorted);
    }
    forall i | 0 <= i < |shown|
      ensures shown[i].date == date
    {
      assert shown[i] in multiset(on);
    }
  }

  lemma {:induction false} ReversePermutes<T>(s: seq<T>)
    ensures multiset(Seqs.Reverse(s)) == multiset(s)
  {
    if s != [] {
      ReversePermutes(s[..|s| - 1]);
      assert s == s[..|s| - 1] + [s[|s| - 1]];
    }
  }

  /** The order `addRoutine` gives: one more than the number of routines on the day. */
  function NewOrder(routines: seq<Routine>, date: string): int
  {
    |Seqs.Filter(OnDate(date), routines)| + 1
  }

  /** The name `addRoutine` gives: `Routine <order>`. */
  function NewName(order: int): string
  {
    "Routine " + IntToString(order)
  }

  /**
   * When the day's orders are no larger than its number of routines (as when
   * they are 1, 2, … n), the added routine has the highest order and is shown
   * first.
   */
  lemma AddedRoutineShownFirst(t: Tables, date: string)
    requires forall r :: r in t.routines && r.date == date ==> r.order < NewOrder(t.routines, date)
    ensures var n := NewOrder(t.routines, date);
      var u := AddRoutine(t, date, NewName(n), n);
      Displayed(u.routines, date)[0] == Routine(t.nextRoutineId, date, NewName(n), n)
  {
    var n := NewOrder(t.routines, date);
    var added := Routine(t.nextRoutineId, date, NewName(n), n);
    var on := Seqs.Filter(OnDate(date), t.routines);
    AddedOnDay(t, date, NewName(n), n);
    OnDayBelow(t.routines, date, n);
    SortedLastIsMax(on, added);
    var sorted := Seqs.SortBy(ByOrder, on + [added]);
    assert Seqs.Reverse(sorted)[0] == sorted[|sorted| - 1];
  }

  /** The routine `add` appends is the last of the day's routines. */
  lemma AddedOnDay(t: Tables, date: string, name: string, order: int)
    ensures Seqs.Filter(OnDate(date), AddRoutine(t, date, name, order).routines)
         == Seqs.Filter(OnDate(date), t.routines) + [Routine(t.nextRoutineId, date, name, order)]
  {
    var u := AddRoutine(t, date, name, order);
    assert u.routines[..|t.routines|] == t.routines;
  }

  lemma OnDayBelow(routines: seq<Routine>, date: string, n: int)
    requires forall r :: r in routines && r.date == date ==> r.order < n
    ensures forall r :: r in Seqs.Filter(OnDate(date), routines) ==> r.order < n
  {
    forall r | r in Seqs.Filter(OnDate(date), routines)
      ensures r.order < n
    {
      Seqs.FilterMembership(OnDate(date), routines, r);
    }
  }

  /** Sorting by order puts a routine whose order is above all others last. */
  lemma SortedLastIsMax(on: seq<Routine>, added: Routine)
    requires forall r :: r in on ==> r.order < added.order
    ensures var sorted := Seqs.SortBy(ByOrder, on + [added]);
      sorted[|sorted| - 1] == added
  {
    var all := on + [added];
    var sorted := Seqs.SortBy(ByOrder, all);
    Seqs.SortPermutes(ByOrder, all);
    Seqs.SortSorted(ByOrder, all);
    assert added in multiset(sorted);
    var k :| 0 <= k < |sorted| && sorted[k] == added;
    var last := sorted[|sorted| - 1];
    assert last.order >= added.order;
    assert last in multiset(all);
    assert last !in on;
    assert last in all;
  }

  // ---------------------------------------------------------------- deleting

  /** The keys of the routine's exercises, in key order. */
  function ExerciseIdsOf(t: Tables, routineId: nat): seq<nat>
  {
    Seqs.Map(ExerciseId, Seqs.Filter(InRoutine(routineId), t.exercises))
  }

  function NotOfAny(exerciseIds: seq<nat>): Photo -> bool
  {
    (p: Photo) => p.exerciseId !in exerciseIds
  }

  /** `deleteRoutine(id)`: the photos of its exercises, its exercises, and the routine go. */
  function Cascade(t: Tables, routineId: nat): Tables
  {
    t.(photos := Seqs.Filter(NotOfAny(ExerciseIdsOf(t, routineId)), t.photos),
       exercises := Seqs.Filter(NotInRoutine(routineId), t.exercises),
       routines := Seqs.Filter(RoutineIsNot(routineId), t.routines))
  }

  /** Every exercise belongs to a stored routine and every photo to a stored exercise. */
  predicate Linked(t: Tables)
  {
    && (forall e :: e in t.exercises ==> exists r :: r in t.routines && r.id == e.routineId)
    && (forall p :: p in t.photos ==> exists e :: e in t.exercises && e.id == p.exerciseId)
  }

  /**
   * The cascade leaves nothing behind that pointed at the routine, and leaves no
   * exercise or photo without its parent: a linked database stays linked.
   */
  lemma CascadeKeepsLinked(t: Tables, routineId: nat)
    requires Linked(t)
    ensures var u := Cascade(t, routineId);
      && Linked(u)
      && (forall r :: r in u.routines ==> r.id != routineId)
      && (forall e :: e in u.exercises ==> e.routineId != routineId)
  {
    CascadeRoutines(t, routineId);
    CascadeExercises(t, routineId);
    CascadePhotos(t, routineId);
  }

  lemma CascadeRoutines(t: Tables, routineId: nat)
    ensures forall r :: r in Cascade(t, routineId).routines ==> r in t.routines && r.id != routineId
  {
    forall r | r in Cascade(t, routineId).routines
      ensures r in t.routines && r.id != routineId
    {
      Seqs.FilterMembership(RoutineIsNot(routineId), t.routines, r);
    }
  }

  lemma CascadeExercises(t: Tables, routineId: nat)
    requires forall e :: e in t.exercises ==> exists r :: r in t.routines && r.id == e.routineId
    ensures var u := Cascade(t, routineId);
      forall e :: e in u.exercises ==> e.routineId != routineId && exists r :: r in u.routines && r.id == e.routineId
  {
    var u := Cascade(t, routineId);
    forall e | e in u.exercises
      ensures e.routineId != routineId && exists r :: r in u.routines && r.id == e.routineId
    {
      Seqs.FilterMembership(NotInRoutine(routineId), t.exercises, e);
      var r :| r in t.routines && r.id == e.routineId;
      Seqs.FilterMembership(RoutineIsNot(routineId), t.routines, r);
    }
  }

  lemma CascadePhotos(t: Tables, routineId: nat)
    requires forall p :: p in t.photos ==> exists e :: e in t.exercises && e.id == p.exerciseId
    ensures var u := Cascade(t, routineId);
      forall p :: p in u.photos ==> exists e :: e in u.exercises && e.id == p.exerciseId
  {
    var u := Cascade(t, routineId);
    var ids := ExerciseIdsOf(t, routineId);
    forall p | p in u.photos
      ensures exists e :: e in u.exercises && e.id == p.exerciseId
    {
      Seqs.FilterMembership(NotOfAny(ids), t.photos, p);
      var e :| e in t.exercises && e.id == p.exerciseId;
      IdListed(t, routineId, e);
      Seqs.FilterMembership(NotInRoutine(routineId), t.exercises, e);
    }
  }

  /** An exercise of the routine has its key among the routine's exercise keys. */
  lemma IdListed(t: Tables, routineId: nat, e: Exercise)
    ensures e in t.exercises && e.routineId == routineId ==> e.id in ExerciseIdsOf(t, routineId)
  {
    if e in t.exercises && e.routineId == routineId {
      var mine := Seqs.Filter(InRoutine(routineId), t.exercises);
      Seqs.FilterMembership(InRoutine(routineId), t.exercises, e);
      var k :| 0 <= k < |mine| && mine[k] == e;
      assert ExerciseIdsOf(t, routineId)[k] == e.id;
    }
  }

  // ---------------------------------------------------------------- expansion

  /** A `useState` slot: never set (`undefined`), or holding an id or `null`. */
  datatype Slot = Unset | Holding(id: Option<nat>)

  /** `expandedId !== undefined ? expandedId : newestId`. */
  function ActiveId(expanded: Slot, newestId: Option<nat>): Option<nat>
  {
    if expanded.Holding? then expanded.id else newestId
  }

  /**
   * The slot starts as `null` and is only ever set to an id or `null`, so the
   * newest routine is never expanded on its own: the active card is the one the
   * slot holds.
   */
  lemma NewestNeverAutoExpanded(expandedId: Option<nat>, newestId: Option<nat>)
    ensures ActiveId(Holding(expandedId), newestId) == expandedId
    ensures expandedId.None? && newestId.Some? ==> ActiveId(Holding(expandedId), newestId) != newestId
  {
  }

  /** `handleToggle(id)`: the active card collapses; any other card becomes the active one. */
  function Toggled(active: Option<nat>, id: nat): (r: Option<nat>)
  {
    if active == Some(id) then None else Some(id)
  }

  /** Tapping a card twice puts the expansion back, unless another card was open, which the first tap closed. */
  lemma ToggleTwice(active: Option<nat>, id: nat)
    ensures Toggled(Toggled(active, id), id) == (if active == Some(id) then Some(id) else None)
    ensures Toggled(active, id) == Some(id) <==> active != Some(id)
  {
  }

  /** The day screen: its date and the expanded-card slot, which always holds a value. */
  class DayScreen {
    const date: string
    var expandedId: Option<nat>

    constructor(date: string)
      ensures this.date == date && expandedId == None
    {
      this.date := date;
      expandedId := None;
    }

    /** The active card: `ActiveId` of a slot that is never `undefined`. */
    function Active(): Option<nat>
      reads this
    {
      ActiveId(Holding(expandedId), None)
    }

    /** `addRoutine()`: the routine `Routine <n>` with order `n`, one past the day's count, becomes the expanded card. */
    method AddRoutine(db: PumpDb) returns (id: nat)
      requires db.Valid()
      modifies db, this
      ensures db.Valid() && db.version == old(db.version)
      ensures var n := NewOrder(old(db.routines), date);
        db.State() == LocalDb.AddRoutine(old(db.State()), date, NewName(n), n)
      ensures id == old(db.nextRoutineId) && expandedId == Some(id)
    {
      var order := |db.RoutinesOn(date)| + 1;
      id := db.InsertRoutine(date, NewName(order), order);
      expandedId := Some(id);
    }

    /** `deleteRoutine(id)`: the cascade, one delete at a time, then the card collapses if it was the active one. */
    method DeleteRoutine(db: PumpDb, id: nat)
      requires db.Valid()
      modifies db, this
      ensures db.Valid() && db.version == old(db.version)
      ensures db.State() == Cascade(old(db.State()), id)
      ensures expandedId == if old(Active()) == Some(id) then None else old(expandedId)
    {
      var exercises := db.ExercisesOf(id);
      ghost var ids := Seqs.Map(ExerciseId, exercises);
      ghost var photos0 := db.photos;
      Seqs.FilterAll(NotOfAny(ids[..0]), photos0);
      for i := 0 to |exercises|
        invariant db.Valid() && db.version == old(db.version)
        invariant db.State() == old(db.State()).(photos := Seqs.Filter(NotOfAny(ids[..i]), photos0))
        invariant expandedId == old(expandedId)
      {
        db.DeletePhotosOf(exercises[i].id);
        Seqs.FilterCompose(NotOfAny(ids[..i]), NotOfExercise(ids[i]), NotOfAny(ids[..i + 1]), photos0);
      }
      assert ids[..|exercises|] == ids;
      db.DeleteExercisesOf(id);
      db.DeleteRoutine(id);
      if Active() == Some(id) {
        expandedId := None;
      }
    }

    /** `handleToggle(id)`. */
    method Toggle(id: nat)
      modifies this
      ensures expandedId == Toggled(old(Active()), id)
    {
      expandedId := Toggled(Active(), id);
    }
  }
}
