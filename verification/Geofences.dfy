/** Enter and exit alerts of geofences, decided for one location at a time. */
module Geofences {
  import opened Prelude
  import opened Polygons

  type Imei = string
  type Id = string

  datatype Shape =
    | Circle(centerLat: Option<real>, centerLng: Option<real>, radiusMeters: Option<real>)
    | Polygon(points: seq<Point>)

  datatype Geofence = Geofence(id: Id, isActive: bool, deviceImeis: seq<Imei>, shape: Shape)

  datatype Kind = Enter | Exit

  datatype Note = Note(kind: Kind, imei: Imei, fence: Id)

  /** For each device the fences it was last found inside, in the order they were added, and the alerts so far. */
  datatype Watch = Watch(deviceState: map<Imei, seq<Id>>, notes: seq<Note>)

  /** The distance in metres between two points, as the haversine formula computes it. */
  type Distance = (real, real, real, real) -> real

  /** One location, with the fences stored at that moment. */
  datatype Location = Location(imei: Imei, lat: real, lng: real, fences: seq<Geofence>)

  predicate AppliesTo(f: Geofence, imei: Imei) {
    f.isActive && (f.deviceImeis == [] || imei in f.deviceImeis)
  }

  function Find(fences: seq<Geofence>, imei: Imei): (r: seq<Geofence>)
    ensures forall f :: f in r <==> f in fences && AppliesTo(f, imei)
  {
    if fences == [] then []
    else
      var last := fences[|fences| - 1];
      Find(fences[..|fences| - 1], imei) + (if AppliesTo(last, imei) then [last] else [])
  }

  predicate IsInside(f: Geofence, lat: real, lng: real, distance: Distance) {
    match f.shape
    case Circle(cLat, cLng, radius) =>
      cLat.Some? && cLng.Some? && radius.Some? && distance(lat, lng, cLat.value, cLng.value) <= radius.value
    case Polygon(points) => |points| >= 3 && Inside(lat, lng, points)
  }

  /** Set.add on an insertion-ordered set. */
  function Add(ids: seq<Id>, id: Id): seq<Id> {
    if id in ids then ids else ids + [id]
  }

  predicate NoRepeats(ids: seq<Id>) {
    forall i, j | 0 <= i < j < |ids| :: ids[i] != ids[j]
  }

  /** The location is inside a fence found that has the id. */
  predicate Contains(found: seq<Geofence>, lat: real, lng: real, distance: Distance, id: Id) {
    exists f :: f in found && f.id == id && IsInside(f, lat, lng, distance)
  }

  /** The fences the location is inside of. */
  function InsideIds(found: seq<Geofence>, lat: real, lng: real, distance: Distance): (r: seq<Id>)
    ensures NoRepeats(r)
    ensures forall id :: id in r <==> Contains(found, lat, lng, distance, id)
  {
    if found == [] then []
    else
      var last := found[|found| - 1];
      assert found == found[..|found| - 1] + [last];
      var rest := InsideIds(found[..|found| - 1], lat, lng, distance);
      if IsInside(last, lat, lng, distance) then Add(rest, last.id) else rest
  }

  /** The ids that are not among the others, in order. */
  function Without(ids: seq<Id>, others: seq<Id>): (r: seq<Id>)
    ensures forall id :: id in r <==> id in ids && id !in others
    ensures NoRepeats(ids) ==> NoRepeats(r)
  {
    if ids == [] then []
    else
      var last := ids[|ids| - 1];
      Without(ids[..|ids| - 1], others) + (if last in others then [] else [last])
  }

  predicate Stored(found: seq<Geofence>, id: Id) {
    exists f :: f in found && f.id == id
  }

  /** The ids that a fence found has, in order. */
  function OnlyStored(ids: seq<Id>, found: seq<Geofence>): (r: seq<Id>)
    ensures forall id :: id in r <==> id in ids && Stored(found, id)
    ensures NoRepeats(ids) ==> NoRepeats(r)
  {
    if ids == [] then []
    else
      var last := ids[|ids| - 1];
      OnlyStored(ids[..|ids| - 1], found) + (if Stored(found, last) then [last] else [])
  }

  function Alerts(kind: Kind, imei: Imei, ids: seq<Id>): seq<Note> {
    if ids == [] then [] else Alerts(kind, imei, ids[..|ids| - 1]) + [Note(kind, imei, ids[|ids| - 1])]
  }

  function Previous(w: Watch, imei: Imei): seq<Id> {
    if imei in w.deviceState then w.deviceState[imei] else []
  }

  /** The fences newly entered; all of them are among those found. */
  function EnteredIds(w: Watch, l: Location, distance: Distance): (r: seq<Id>)
    ensures NoRepeats(r)
  {
    Without(InsideIds(Find(l.fences, l.imei), l.lat, l.lng, distance), Previous(w, l.imei))
  }

  /** The fences left that are still among those found. */
  function ExitedIds(w: Watch, l: Location, distance: Distance): (r: seq<Id>)
    ensures NoRepeats(Previous(w, l.imei)) ==> NoRepeats(r)
  {
    var found := Find(l.fences, l.imei);
    var current := InsideIds(found, l.lat, l.lng, distance);
    OnlyStored(Without(Previous(w, l.imei), current), found)
  }

  function Evaluate(w: Watch, l: Location, distance: Distance): Watch {
    var found := Find(l.fences, l.imei);
    if found == [] then w
    else
      Watch(w.deviceState[l.imei := InsideIds(found, l.lat, l.lng, distance)],
            w.notes + Alerts(Enter, l.imei, EnteredIds(w, l, distance))
                    + Alerts(Exit, l.imei, ExitedIds(w, l, distance)))
  }

  class GeofencesService {
    const distance: Distance
    var deviceState: map<Imei, seq<Id>>
    var notes: seq<Note>

    constructor (distance: Distance)
      ensures this.distance == distance && State() == Watch(map[], [])
    {
      this.distance := distance;
      deviceState, notes := map[], [];
    }

    function State(): Watch
      reads this
    {
      Watch(deviceState, notes)
    }

    /** The fences found that contain the location. */
    method CurrentInside(found: seq<Geofence>, lat: real, lng: real) returns (ids: seq<Id>)
      ensures ids == InsideIds(found, lat, lng, distance)
      ensures NoRepeats(ids) && forall id :: id in ids <==> Contains(found, lat, lng, distance, id)
    {
      hide IsInside, Add, Contains;
      ids := [];
      var i := 0;
      while i < |found|
        invariant 0 <= i <= |found|
        invariant ids == InsideIds(found[..i], lat, lng, distance)
      {
        assert found[..i + 1][..i] == found[..i];
        if IsInside(found[i], lat, lng, distance) {
          ids := Add(ids, found[i].id);
        }
        i := i + 1;
      }
      assert found[..|found|] == found;
    }

    /** One alert for each id that one of the fences found has. */
    method CreateAlerts(kind: Kind, imei: Imei, found: seq<Geofence>, ids: seq<Id>)
      modifies this`notes
      ensures notes == old(notes) + Alerts(kind, imei, OnlyStored(ids, found))
    {
      hide Stored, Alerts, OnlyStored;
      var i := 0;
      assert Alerts(kind, imei, OnlyStored(ids[..0], found)) == [] by { NoAlerts(kind, imei, ids[..0], found); }
      while i < |ids|
        invariant 0 <= i <= |ids|
        invariant notes == old(notes) + Alerts(kind, imei, OnlyStored(ids[..i], found))
      {
        OneMoreAlert(kind, imei, ids, i, found);
        var known := HasFence(found, ids[i]);
        if known {
          notes := notes + [Note(kind, imei, ids[i])];
        }
        i := i + 1;
      }
      assert ids[..|ids|] == ids;
    }

    /** geofences.find by id. */
    method HasFence(found: seq<Geofence>, id: Id) returns (known: bool)
      ensures known == Stored(found, id)
    {
      var i := 0;
      while i < |found|
        invariant 0 <= i <= |found|
        invariant forall k | 0 <= k < i :: found[k].id != id
      {
        if found[i].id == id {
          return true;
        }
        i := i + 1;
      }
      return false;
    }

    method EvaluateGeofences(l: Location)
      modifies this
      ensures State() == Evaluate(old(State()), l, distance)
    {
      hide InsideIds, Without, OnlyStored, Alerts, Stored;
      var geofences := Find(l.fences, l.imei);
      if |geofences| == 0 {
        return;
      }
      ghost var w := State();
      var currentInside := CurrentInside(geofences, l.lat, l.lng);
      var previousInside := if l.imei in deviceState then deviceState[l.imei] else [];
      var entered := Without(currentInside, previousInside);
      var exited := Without(previousInside, currentInside);
      AllEnteredStored(w, l, distance);
      CreateAlerts(Enter, l.imei, geofences, entered);
      CreateAlerts(Exit, l.imei, geofences, exited);
      deviceState := deviceState[l.imei := currentInside];
    }
  }

  lemma NoAlerts(kind: Kind, imei: Imei, ids: seq<Id>, found: seq<Geofence>)
    requires ids == []
    ensures Alerts(kind, imei, OnlyStored(ids, found)) == []
  {
  }

  lemma OneMoreAlert(kind: Kind, imei: Imei, ids: seq<Id>, i: nat, found: seq<Geofence>)
    requires i < |ids|
    ensures Alerts(kind, imei, OnlyStored(ids[..i + 1], found)) ==
            Alerts(kind, imei, OnlyStored(ids[..i], found))
                + (if Stored(found, ids[i]) then [Note(kind, imei, ids[i])] else [])
  {
    hide Stored;
    assert ids[..i + 1][..i] == ids[..i];
    var before, after := OnlyStored(ids[..i], found), OnlyStored(ids[..i + 1], found);
    assert after == before + (if Stored(found, ids[i]) then [ids[i]] else []);
    hide OnlyStored;
    if Stored(found, ids[i]) {
      assert after[..|after| - 1] == before;
    } else {
      assert after == before;
    }
  }

  lemma {:induction false} OnlyStoredAll(ids: seq<Id>, found: seq<Geofence>)
    requires forall k | 0 <= k < |ids| :: Stored(found, ids[k])
    ensures OnlyStored(ids, found) == ids
    decreases |ids|
  {
    hide Stored, NoRepeats;
    if ids != [] {
      var n := |ids| - 1;
      assert Stored(found, ids[n]);
      assert OnlyStored(ids, found) == OnlyStored(ids[..n], found) + [ids[n]];
      hide OnlyStored;
      OnlyStoredAll(ids[..n], found);
      assert ids == ids[..n] + [ids[n]];
    }
  }

  /** Every fence newly entered is found again by its id, so none of its alerts is skipped. */
  lemma AllEnteredStored(w: Watch, l: Location, distance: Distance)
    ensures OnlyStored(EnteredIds(w, l, distance), Find(l.fences, l.imei)) == EnteredIds(w, l, distance)
  {
    var found := Find(l.fences, l.imei);
    var now := InsideIds(found, l.lat, l.lng, distance);
    var ids := EnteredIds(w, l, distance);
    forall k | 0 <= k < |ids| ensures Stored(found, ids[k]) {
      assert ids[k] in now;
    }
    OnlyStoredAll(ids, found);
  }

  // Which alerts a location gives.

  /** The fence is on, is meant for the device, and contains the place. */
  predicate Covers(f: Geofence, l: Location, distance: Distance) {
    && f.isActive && (|f.deviceImeis| == 0 || l.imei in f.deviceImeis)
    && match f.shape
       case Circle(Some(lat), Some(lng), Some(radius)) => distance(l.lat, l.lng, lat, lng) <= radius
       case Circle(_, _, _) => false
       case Polygon(points) => |points| > 2 && Inside(l.lat, l.lng, points)
  }

  predicate CoveredBy(l: Location, distance: Distance, id: Id) {
    exists f :: f in l.fences && f.id == id && Covers(f, l, distance)
  }

  /** A fence of the id is on and meant for the device. */
  predicate MeantFor(l: Location, id: Id) {
    exists f :: f in l.fences && f.id == id && f.isActive && (|f.deviceImeis| == 0 || l.imei in f.deviceImeis)
  }

  lemma ContainsIsCovered(l: Location, distance: Distance, id: Id)
    ensures Contains(Find(l.fences, l.imei), l.lat, l.lng, distance, id) <==> CoveredBy(l, distance, id)
    ensures Stored(Find(l.fences, l.imei), id) <==> MeantFor(l, id)
    ensures CoveredBy(l, distance, id) ==> MeantFor(l, id)
  {
    var found := Find(l.fences, l.imei);
    forall f ensures f in found && IsInside(f, l.lat, l.lng, distance) <==> f in l.fences && Covers(f, l, distance) {
      CoversIsInside(f, l, distance);
    }
    hide IsInside, Find;
  }

  lemma CoversIsInside(f: Geofence, l: Location, distance: Distance)
    ensures Covers(f, l, distance) <==> AppliesTo(f, l.imei) && IsInside(f, l.lat, l.lng, distance)
  {
  }

  lemma {:induction false} AlertsAre(kind: Kind, imei: Imei, ids: seq<Id>, n: Note)
    ensures n in Alerts(kind, imei, ids) <==> n.kind == kind && n.imei == imei && n.fence in ids
  {
    if ids != [] {
      AlertsAre(kind, imei, ids[..|ids| - 1], n);
      assert ids == ids[..|ids| - 1] + [ids[|ids| - 1]];
    }
  }

  /**
    A location adds the alerts of its device and no others: ENTER for each fence that covers it and that the device is
    not recorded in, EXIT for each one recorded that does not, if one of that id is still meant for the device. The
    record becomes the fences that cover it, unless none at all is meant for the device.
  */
  lemma AlertsExactly(w: Watch, l: Location, distance: Distance, n: Note)
    ensures var w' := Evaluate(w, l, distance);
            && w.notes <= w'.notes
            && (n in w'.notes[|w.notes|..] <==>
                && n.imei == l.imei
                && (n.kind == Enter ==> CoveredBy(l, distance, n.fence) && n.fence !in Previous(w, l.imei))
                && (n.kind == Exit ==>
                      !CoveredBy(l, distance, n.fence) && n.fence in Previous(w, l.imei) && MeantFor(l, n.fence)))
            && ((exists id :: MeantFor(l, id)) ==>
                  (n.fence in Previous(w', l.imei) <==> CoveredBy(l, distance, n.fence)))
            && ((forall id :: !MeantFor(l, id)) ==> w' == w)
            && forall imei | imei != l.imei :: Previous(w', imei) == Previous(w, imei)
  {
    ContainsIsCovered(l, distance, n.fence);
    FoundExactly(l);
    AlertsAre(Enter, l.imei, EnteredIds(w, l, distance), n);
    AlertsAre(Exit, l.imei, ExitedIds(w, l, distance), n);
    hide Find, InsideIds, Without, OnlyStored, Alerts, Contains, CoveredBy, Stored, MeantFor, NoRepeats;
    var found, w' := Find(l.fences, l.imei), Evaluate(w, l, distance);
    var enters, exits := EnteredIds(w, l, distance), ExitedIds(w, l, distance);
    assert n.fence in enters <==> CoveredBy(l, distance, n.fence) && n.fence !in Previous(w, l.imei);
    assert n.fence in exits <==>
        !CoveredBy(l, distance, n.fence) && n.fence in Previous(w, l.imei) && MeantFor(l, n.fence);
    if found != [] {
      assert w'.notes[|w.notes|..] == Alerts(Enter, l.imei, enters) + Alerts(Exit, l.imei, exits);
    } else {
      assert !MeantFor(l, n.fence);
      assert w'.notes[|w.notes|..] == [];
    }
  }

  lemma FoundExactly(l: Location)
    ensures Find(l.fences, l.imei) != [] <==> exists id :: MeantFor(l, id)
  {
    var found := Find(l.fences, l.imei);
    hide Find;
    if found != [] {
      assert found[0] in found;
      assert MeantFor(l, found[0].id);
    }
  }

  /** All ENTER alerts of a location come before its EXIT alerts, and none comes twice. */
  lemma EntersComeFirst(w: Watch, l: Location, distance: Distance, i: nat, j: nat)
    requires i < j < |Evaluate(w, l, distance).notes| - |w.notes| && NoRepeats(Previous(w, l.imei))
    ensures var added := Evaluate(w, l, distance).notes[|w.notes|..];
            added[i] != added[j] && (added[i].kind == Exit ==> added[j].kind == Exit)
  {
    var enters, exits := EnteredIds(w, l, distance), ExitedIds(w, l, distance);
    AlertsAt(Enter, l.imei, enters);
    AlertsAt(Exit, l.imei, exits);
    hide Find, InsideIds, Without, OnlyStored, Alerts, EnteredIds, ExitedIds;
    assert Evaluate(w, l, distance).notes[|w.notes|..] == Alerts(Enter, l.imei, enters) + Alerts(Exit, l.imei, exits);
  }

  lemma {:induction false} AlertsAt(kind: Kind, imei: Imei, ids: seq<Id>)
    ensures |Alerts(kind, imei, ids)| == |ids|
    ensures forall i | 0 <= i < |ids| :: Alerts(kind, imei, ids)[i] == Note(kind, imei, ids[i])
  {
    if ids != [] {
      AlertsAt(kind, imei, ids[..|ids| - 1]);
    }
  }

  // Alternation.

  /** The kind of the last alert for the device and the fence. */
  function Last(notes: seq<Note>, imei: Imei, id: Id): Option<Kind> {
    if notes == [] then None
    else
      var n := notes[|notes| - 1];
      if n.imei == imei && n.fence == id then Some(n.kind) else Last(notes[..|notes| - 1], imei, id)
  }

  /** Every EXIT comes right after an ENTER of the same device and fence. */
  predicate ExitsMatched(notes: seq<Note>, imei: Imei, id: Id) {
    if notes == [] then true
    else
      var rest := notes[..|notes| - 1];
      ExitsMatched(rest, imei, id) && (notes[|notes| - 1] == Note(Exit, imei, id) ==>
          Last(rest, imei, id) == Some(Enter))
  }

  /** No ENTER comes right after another of the same device and fence. */
  predicate EntersMatched(notes: seq<Note>, imei: Imei, id: Id) {
    if notes == [] then true
    else
      var rest := notes[..|notes| - 1];
      EntersMatched(rest, imei, id) && (notes[|notes| - 1] == Note(Enter, imei, id) ==>
          Last(rest, imei, id) != Some(Enter))
  }

  lemma OneMore(notes: seq<Note>, n: Note, imei: Imei, id: Id)
    ensures Last(notes + [n], imei, id) == if n.imei == imei && n.fence == id then Some(n.kind)
            else Last(notes, imei, id)
    ensures ExitsMatched(notes + [n], imei, id) ==
            (ExitsMatched(notes, imei, id) && (n == Note(Exit, imei, id) ==> Last(notes, imei, id) == Some(Enter)))
    ensures EntersMatched(notes + [n], imei, id) ==
            (EntersMatched(notes, imei, id) && (n == Note(Enter, imei, id) ==> Last(notes, imei, id) != Some(Enter)))
  {
    assert (notes + [n])[..|notes|] == notes;
  }

  /** What a batch of alerts of one kind, for fences without repeats, does to one device and fence. */
  lemma {:induction false} BatchOf(notes: seq<Note>, kind: Kind, from: Imei, ids: seq<Id>, imei: Imei, id: Id)
    requires NoRepeats(ids)
    ensures var hit := from == imei && id in ids;
            var after := notes + Alerts(kind, from, ids);
            && Last(after, imei, id) == (if hit then Some(kind) else Last(notes, imei, id))
            && ExitsMatched(after, imei, id) ==
               (ExitsMatched(notes, imei, id) && (hit && kind == Exit ==> Last(notes, imei, id) == Some(Enter)))
            && EntersMatched(after, imei, id) ==
               (EntersMatched(notes, imei, id) && (hit && kind == Enter ==> Last(notes, imei, id) != Some(Enter)))
  {
    hide Last, ExitsMatched, EntersMatched;
    if ids == [] {
      assert notes + [] == notes;
    } else {
      var rest, last := ids[..|ids| - 1], ids[|ids| - 1];
      BatchOf(notes, kind, from, rest, imei, id);
      var before := notes + Alerts(kind, from, rest);
      assert notes + Alerts(kind, from, ids) == before + [Note(kind, from, last)];
      OneMore(before, Note(kind, from, last), imei, id);
      assert id in ids <==> id in rest || id == last;
      assert last !in rest;
    }
  }

  /** A fence the device is recorded inside of had ENTER as its last alert, and exits are matched. */
  ghost predicate Tracked(w: Watch, imei: Imei, id: Id) {
    && NoRepeats(Previous(w, imei))
    && ExitsMatched(w.notes, imei, id)
    && (id in Previous(w, imei) ==> Last(w.notes, imei, id) == Some(Enter))
  }

  /** Whatever fences are added, changed or removed between locations, EXIT only ever follows ENTER. */
  lemma TrackedPreserved(w: Watch, l: Location, distance: Distance, imei: Imei, id: Id)
    requires Tracked(w, imei, id) && NoRepeats(Previous(w, l.imei))
    ensures Tracked(Evaluate(w, l, distance), imei, id)
  {
    EvaluationOf(w, l, distance, imei, id);
    hide Last, ExitsMatched, EntersMatched, EnteredIds, ExitedIds, Alerts, Find, InsideIds, Without, OnlyStored;
  }

  /** What an evaluation does to one device and fence. */
  lemma EvaluationOf(w: Watch, l: Location, distance: Distance, imei: Imei, id: Id)
    requires NoRepeats(Previous(w, l.imei))
    ensures var w' := Evaluate(w, l, distance);
            var found := Find(l.fences, l.imei);
            var hit := l.imei == imei && found != [];
            var now := InsideIds(found, l.lat, l.lng, distance);
            var entered := hit && id in now && id !in Previous(w, imei);
            var exited := hit && id !in now && id in Previous(w, imei) && Stored(found, id);
            && Previous(w', imei) == (if hit then now else Previous(w, imei))
            && Last(w'.notes, imei, id) == (if exited then Some(Exit) else if entered then Some(Enter)
                else Last(w.notes, imei, id))
            && ExitsMatched(w'.notes, imei, id) ==
               (ExitsMatched(w.notes, imei, id) && (exited ==> Last(w.notes, imei, id) == Some(Enter)))
            && EntersMatched(w'.notes, imei, id) ==
               (EntersMatched(w.notes, imei, id) && (entered ==> Last(w.notes, imei, id) != Some(Enter)))
  {
    hide Last, ExitsMatched, EntersMatched, Alerts, InsideIds, Without, OnlyStored, Stored, Find, NoRepeats;
    var entered, exited := EnteredIds(w, l, distance), ExitedIds(w, l, distance);
    BatchOf(w.notes, Enter, l.imei, entered, imei, id);
    BatchOf(w.notes + Alerts(Enter, l.imei, entered), Exit, l.imei, exited, imei, id);
  }

  /** The device is recorded inside the fence exactly when its last alert is ENTER, and its alerts alternate. */
  ghost predicate Alternating(w: Watch, imei: Imei, id: Id) {
    && NoRepeats(Previous(w, imei))
    && ExitsMatched(w.notes, imei, id) && EntersMatched(w.notes, imei, id)
    && (id in Previous(w, imei) <==> Last(w.notes, imei, id) == Some(Enter))
  }

  /** The fence the device is inside of is gone from the fences found, others being left. */
  ghost predicate Vanishes(w: Watch, l: Location, imei: Imei, id: Id) {
    && l.imei == imei && id in Previous(w, imei)
    && Find(l.fences, imei) != [] && !Stored(Find(l.fences, imei), id)
  }

  /**
    The record keeps agreeing with the last alert exactly at the locations at which the fence does not vanish; the
    alerts so far alternate either way.
  */
  lemma AlternatingExactly(w: Watch, l: Location, distance: Distance, imei: Imei, id: Id)
    requires Alternating(w, imei, id) && NoRepeats(Previous(w, l.imei))
    ensures Alternating(Evaluate(w, l, distance), imei, id) <==> !Vanishes(w, l, imei, id)
    ensures ExitsMatched(Evaluate(w, l, distance).notes, imei, id)
            && EntersMatched(Evaluate(w, l, distance).notes, imei, id)
  {
    EvaluationOf(w, l, distance, imei, id);
    var found := Find(l.fences, l.imei);
    var now := InsideIds(found, l.lat, l.lng, distance);
    assert id in now ==> Stored(found, id);
    hide Last, ExitsMatched, EntersMatched, EnteredIds, ExitedIds, Alerts, Find, InsideIds, Without, OnlyStored,
        Evaluate;
  }

  // Whole runs.

  function Run(w: Watch, ls: seq<Location>, distance: Distance): Watch
    decreases |ls|
  {
    if ls == [] then w else Run(Evaluate(w, ls[0], distance), ls[1..], distance)
  }

  ghost predicate AllNoRepeats(w: Watch) {
    forall imei: Imei :: NoRepeats(Previous(w, imei))
  }

  lemma AllNoRepeatsPreserved(w: Watch, l: Location, distance: Distance)
    requires AllNoRepeats(w)
    ensures AllNoRepeats(Evaluate(w, l, distance))
  {
    hide EnteredIds, ExitedIds, Alerts, Find, InsideIds, NoRepeats;
    forall imei: Imei ensures NoRepeats(Previous(Evaluate(w, l, distance), imei)) {
      assert NoRepeats(Previous(w, imei));
    }
  }

  lemma {:induction false} EveryExitFollowsEnter(w: Watch, ls: seq<Location>, distance: Distance, imei: Imei, id: Id)
    requires AllNoRepeats(w) && Tracked(w, imei, id)
    ensures Tracked(Run(w, ls, distance), imei, id)
    decreases |ls|
  {
    hide Evaluate, Tracked, NoRepeats;
    if ls != [] {
      AllNoRepeatsPreserved(w, ls[0], distance);
      TrackedPreserved(w, ls[0], distance, imei, id);
      EveryExitFollowsEnter(Evaluate(w, ls[0], distance), ls[1..], distance, imei, id);
    }
  }

  /** Every location is evaluated against the same stored fences. */
  ghost predicate FixedFences(ls: seq<Location>, fences: seq<Geofence>) {
    forall i | 0 <= i < |ls| :: ls[i].fences == fences
  }

  /** The device is recorded inside fences that are stored for it. */
  ghost predicate InsideStored(w: Watch, fences: seq<Geofence>, imei: Imei) {
    forall id | id in Previous(w, imei) :: Stored(Find(fences, imei), id)
  }

  lemma InsideStoredPreserved(w: Watch, l: Location, distance: Distance, imei: Imei)
    requires InsideStored(w, l.fences, imei)
    ensures InsideStored(Evaluate(w, l, distance), l.fences, imei)
  {
    hide EnteredIds, ExitedIds, Alerts, Find, InsideIds, NoRepeats;
  }

  /** With a fixed set of fences, enter and exit alerts strictly alternate for every device and fence. */
  lemma {:induction false} FixedFencesAlternate(
      w: Watch, ls: seq<Location>, fences: seq<Geofence>, distance: Distance, imei: Imei, id: Id)
    requires AllNoRepeats(w) && Alternating(w, imei, id) && InsideStored(w, fences, imei) && FixedFences(ls, fences)
    ensures Alternating(Run(w, ls, distance), imei, id)
    decreases |ls|
  {
    hide Evaluate, Alternating, NoRepeats, Find, Stored;
    if ls != [] {
      AllNoRepeatsPreserved(w, ls[0], distance);
      AlternatingExactly(w, ls[0], distance, imei, id);
      InsideStoredPreserved(w, ls[0], distance, imei);
      FixedFencesAlternate(Evaluate(w, ls[0], distance), ls[1..], fences, distance, imei, id);
    }
  }

  // The alerts by themselves, for any fences.

  /** The location is inside the fence, and the device is not recorded there: ENTER is decided. */
  predicate EntersAt(w: Watch, l: Location, distance: Distance, imei: Imei, id: Id) {
    var found := Find(l.fences, l.imei);
    l.imei == imei && found != [] && id in InsideIds(found, l.lat, l.lng, distance) && id !in Previous(w, imei)
  }

  /** The last alert said ENTER, but the device is not recorded inside. */
  predicate Forgotten(w: Watch, imei: Imei, id: Id) {
    id !in Previous(w, imei) && Last(w.notes, imei, id) == Some(Enter)
  }

  /** A location repeats ENTER exactly when it enters a forgotten fence; what is repeated stays so. */
  lemma RepeatsExactly(w: Watch, l: Location, distance: Distance, imei: Imei, id: Id)
    requires NoRepeats(Previous(w, l.imei))
    ensures EntersMatched(Evaluate(w, l, distance).notes, imei, id) <==>
            EntersMatched(w.notes, imei, id) && !(EntersAt(w, l, distance, imei, id) && Forgotten(w, imei, id))
  {
    EvaluationOf(w, l, distance, imei, id);
    hide Last, ExitsMatched, EntersMatched, EnteredIds, ExitedIds, Alerts, Find, InsideIds, Evaluate;
  }

  /** A fence becomes forgotten exactly by vanishing, and stays so until the device enters it again. */
  lemma ForgottenExactly(w: Watch, l: Location, distance: Distance, imei: Imei, id: Id)
    requires NoRepeats(Previous(w, l.imei)) && Tracked(w, imei, id)
    ensures Forgotten(Evaluate(w, l, distance), imei, id) <==>
            Vanishes(w, l, imei, id) || (Forgotten(w, imei, id) && !EntersAt(w, l, distance, imei, id))
  {
    EvaluationOf(w, l, distance, imei, id);
    var found := Find(l.fences, l.imei);
    var now := InsideIds(found, l.lat, l.lng, distance);
    assert id in now ==> Stored(found, id);
    hide Last, ExitsMatched, EntersMatched, EnteredIds, ExitedIds, Alerts, Find, InsideIds, Evaluate;
  }

  /** The watch before location k of a run. */
  function Before(w: Watch, ls: seq<Location>, distance: Distance, k: nat): Watch
    requires k <= |ls|
  {
    if k == 0 then w else Evaluate(Before(w, ls, distance, k - 1), ls[k - 1], distance)
  }

  lemma {:induction false} BeforeIsRun(w: Watch, ls: seq<Location>, distance: Distance)
    ensures Before(w, ls, distance, |ls|) == Run(w, ls, distance)
    decreases |ls|
  {
    hide Evaluate;
    if ls != [] {
      BeforeRest(w, ls, distance, |ls| - 1);
      BeforeIsRun(Evaluate(w, ls[0], distance), ls[1..], distance);
    }
  }

  lemma {:induction false} BeforeRest(w: Watch, ls: seq<Location>, distance: Distance, k: nat)
    requires k < |ls|
    ensures Before(w, ls, distance, k + 1) == Before(Evaluate(w, ls[0], distance), ls[1..], distance, k)
  {
    hide Evaluate;
    if k > 0 {
      BeforeRest(w, ls, distance, k - 1);
    } else {
      assert Before(w, ls, distance, 1) == Evaluate(Before(w, ls, distance, 0), ls[0], distance);
    }
  }

  predicate EntersIn(w: Watch, ls: seq<Location>, distance: Distance, imei: Imei, id: Id, k: nat) {
    k < |ls| && EntersAt(Before(w, ls, distance, k), ls[k], distance, imei, id)
  }

  ghost predicate VanishesIn(w: Watch, ls: seq<Location>, distance: Distance, imei: Imei, id: Id, k: nat) {
    k < |ls| && Vanishes(Before(w, ls, distance, k), ls[k], imei, id)
  }

  /** The fence vanished at location j, and the device has not entered it between there and location k. */
  ghost predicate GoneSince(w: Watch, ls: seq<Location>, distance: Distance, imei: Imei, id: Id, j: nat, k: nat) {
    && j < k && VanishesIn(w, ls, distance, imei, id, j)
    && forall m: nat | j < m < k :: !EntersIn(w, ls, distance, imei, id, m)
  }

  lemma {:induction false} TrackedBefore(w: Watch, ls: seq<Location>, distance: Distance, imei: Imei, id: Id, k: nat)
    requires k <= |ls| && AllNoRepeats(w) && Tracked(w, imei, id)
    ensures AllNoRepeats(Before(w, ls, distance, k)) && Tracked(Before(w, ls, distance, k), imei, id)
  {
    hide Evaluate, Tracked, NoRepeats;
    if k > 0 {
      TrackedBefore(w, ls, distance, imei, id, k - 1);
      AllNoRepeatsPreserved(Before(w, ls, distance, k - 1), ls[k - 1], distance);
      TrackedPreserved(Before(w, ls, distance, k - 1), ls[k - 1], distance, imei, id);
    }
  }

  lemma {:induction false} ForgottenSince(w: Watch, ls: seq<Location>, distance: Distance, imei: Imei, id: Id, k: nat)
    requires k <= |ls| && AllNoRepeats(w) && Alternating(w, imei, id)
    ensures Forgotten(Before(w, ls, distance, k), imei, id) <==>
            exists j: nat :: GoneSince(w, ls, distance, imei, id, j, k)
  {
    hide Evaluate, Vanishes, EntersAt, NoRepeats, Last, ExitsMatched, EntersMatched;
    if k > 0 {
      var n := k - 1;
      ForgottenSince(w, ls, distance, imei, id, n);
      TrackedBefore(w, ls, distance, imei, id, n);
      ForgottenExactly(Before(w, ls, distance, n), ls[n], distance, imei, id);
      hide Forgotten, Tracked, Alternating, Before;
      if VanishesIn(w, ls, distance, imei, id, n) {
        assert GoneSince(w, ls, distance, imei, id, n, k);
      }
      forall j: nat ensures j < n ==> (GoneSince(w, ls, distance, imei, id, j, k) <==>
                GoneSince(w, ls, distance, imei, id, j, n) && !EntersIn(w, ls, distance, imei, id, n)) {
      }
    }
  }

  /**
    Over any run and any changing fence set, ENTER is never repeated exactly when the device never comes back into a
    fence that vanished while it was recorded inside and that it has not entered since.
  */
  lemma {:induction false} EntersMatchedExactly(
      w: Watch, ls: seq<Location>, distance: Distance, imei: Imei, id: Id, n: nat)
    requires n <= |ls| && AllNoRepeats(w) && Alternating(w, imei, id)
    ensures EntersMatched(Before(w, ls, distance, n).notes, imei, id) <==>
            !exists j: nat, k: nat ::
               k < n && EntersIn(w, ls, distance, imei, id, k) && GoneSince(w, ls, distance, imei, id, j, k)
  {
    hide Evaluate, EntersAt, NoRepeats, Last, ExitsMatched, EntersMatched, GoneSince;
    if n > 0 {
      var m := n - 1;
      EntersMatchedExactly(w, ls, distance, imei, id, m);
      ForgottenSince(w, ls, distance, imei, id, m);
      TrackedBefore(w, ls, distance, imei, id, m);
      RepeatsExactly(Before(w, ls, distance, m), ls[m], distance, imei, id);
      hide Forgotten, Tracked, Alternating;
    }
  }

  /** The same for a whole run, which also matches its exits. */
  lemma AlertsAlternateExactly(w: Watch, ls: seq<Location>, distance: Distance, imei: Imei, id: Id)
    requires AllNoRepeats(w) && Alternating(w, imei, id)
    ensures ExitsMatched(Run(w, ls, distance).notes, imei, id)
    ensures EntersMatched(Run(w, ls, distance).notes, imei, id) <==>
            !exists j: nat, k: nat ::
               k < |ls| && EntersIn(w, ls, distance, imei, id, k) && GoneSince(w, ls, distance, imei, id, j, k)
  {
    EntersMatchedExactly(w, ls, distance, imei, id, |ls|);
    BeforeIsRun(w, ls, distance);
    EveryExitFollowsEnter(w, ls, distance, imei, id);
    hide EntersIn, GoneSince, Run, Before, AllNoRepeats, EntersMatched;
  }

  // A run that repeats ENTER.

  const NOWHERE: Distance := (a: real, b: real, c: real, d: real) => 0.0

  /** A fence that every location is inside of, and one that none is. */
  function Everywhere(id: Id): Geofence {
    Geofence(id, true, [], Circle(Some(0.0), Some(0.0), Some(0.0)))
  }

  function Shapeless(id: Id): Geofence {
    Geofence(id, true, [], Circle(None, None, None))
  }

  lemma FindBoth(a: Geofence, b: Geofence, imei: Imei)
    requires AppliesTo(a, imei) && AppliesTo(b, imei)
    ensures Find([b], imei) == [b] && Find([a, b], imei) == [a, b]
  {
    assert [b][..0] == [] && [a, b][..1] == [a] && [a][..0] == [];
    assert Find([], imei) == [];
    assert Find([a], imei) == Find([], imei) + [a];
    assert Find([a, b], imei) == Find([a], imei) + [b];
  }

  lemma InsideFirst(a: Id, b: Id)
    ensures InsideIds([Shapeless(b)], 0.0, 0.0, NOWHERE) == []
    ensures InsideIds([Everywhere(a), Shapeless(b)], 0.0, 0.0, NOWHERE) == [a]
  {
    var x, y := Everywhere(a), Shapeless(b);
    assert [y][..0] == [] && [x, y][..1] == [x] && [x][..0] == [];
    assert IsInside(x, 0.0, 0.0, NOWHERE) && !IsInside(y, 0.0, 0.0, NOWHERE);
    assert InsideIds([], 0.0, 0.0, NOWHERE) == [];
    assert InsideIds([x], 0.0, 0.0, NOWHERE) == [a];
  }

  lemma SomeMember(ids: seq<Id>)
    ensures ids == [] || exists id :: id in ids
  {
    if ids != [] {
      assert ids[0] in ids;
    }
  }

  /** A location with the previous record and what it is inside of given, at which no fence found has been left. */
  lemma EvaluateTo(w: Watch, l: Location, distance: Distance, now: seq<Id>, entered: seq<Id>)
    requires Find(l.fences, l.imei) != [] && InsideIds(Find(l.fences, l.imei), l.lat, l.lng, distance) == now
    requires Without(now, Previous(w, l.imei)) == entered
    requires forall id | id in Previous(w, l.imei) && id !in now :: !Stored(Find(l.fences, l.imei), id)
    ensures Evaluate(w, l, distance) == Watch(w.deviceState[l.imei := now], w.notes + Alerts(Enter, l.imei, entered))
  {
    hide Find, InsideIds, Stored;
    var exited := ExitedIds(w, l, distance);
    SomeMember(exited);
    assert Alerts(Exit, l.imei, []) == [];
  }

  lemma OneEntered(a: Id, previous: seq<Id>)
    ensures Without([a], previous) == (if a in previous then [] else [a]) && Without([], previous) == []
  {
    assert [a][..0] == [];
  }

  lemma OneAlert(kind: Kind, imei: Imei, a: Id)
    ensures Alerts(kind, imei, [a]) == [Note(kind, imei, a)] && Alerts(kind, imei, []) == []
  {
    assert [a][..0] == [];
  }

  /** A fence that is gone for one location, another being left, is entered twice in a row. */
  lemma VanishedFenceEntersTwice(imei: Imei, a: Id, b: Id)
    requires a != b
    ensures var both, left := [Everywhere(a), Shapeless(b)], [Shapeless(b)];
            var ls := [Location(imei, 0.0, 0.0, both), Location(imei, 0.0, 0.0, left), Location(imei, 0.0, 0.0, both)];
            Run(Watch(map[], []), ls, NOWHERE).notes == [Note(Enter, imei, a), Note(Enter, imei, a)]
  {
    hide Evaluate, Find, InsideIds, Without, Alerts, Everywhere, Shapeless;
    var both, left := [Everywhere(a), Shapeless(b)], [Shapeless(b)];
    var l0, l1 := Location(imei, 0.0, 0.0, both), Location(imei, 0.0, 0.0, left);
    BothApply(imei, a, b);
    FindBoth(Everywhere(a), Shapeless(b), imei);
    InsideFirst(a, b);
    OneAlert(Enter, imei, a);
    var w0 := Watch(map[], []);
    OneEntered(a, []);
    EvaluateTo(w0, l0, NOWHERE, [a], [a]);
    var w1 := Evaluate(w0, l0, NOWHERE);
    OneEntered(a, [a]);
    EvaluateTo(w1, l1, NOWHERE, [], []);
    var w2 := Evaluate(w1, l1, NOWHERE);
    EvaluateTo(w2, l0, NOWHERE, [a], [a]);
    var w3 := Evaluate(w2, l0, NOWHERE);
    RunOfThree(w0, l0, l1, l0, NOWHERE);
  }

  lemma BothApply(imei: Imei, a: Id, b: Id)
    requires a != b
    ensures AppliesTo(Everywhere(a), imei) && AppliesTo(Shapeless(b), imei) && !Stored([Shapeless(b)], a)
  {
  }

  lemma RunOfThree(w: Watch, l0: Location, l1: Location, l2: Location, distance: Distance)
    ensures Run(w, [l0, l1, l2], distance) == Evaluate(Evaluate(Evaluate(w, l0, distance), l1, distance), l2, distance)
  {
    hide Evaluate;
    assert [l0, l1, l2][1..] == [l1, l2] && [l1, l2][1..] == [l2] && [l2][1..] == [];
    assert Run(Evaluate(Evaluate(w, l0, distance), l1, distance), [l2], distance)
        == Run(Evaluate(Evaluate(Evaluate(w, l0, distance), l1, distance), l2, distance), [], distance);
  }
}
