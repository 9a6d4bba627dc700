/**
 * The marker index and the reconciliation pass of `render`
 * (script.js:87, 118-135, 157-166, 184-194).
 *
 * A `Marker` stands for a map overlay handle: an object whose position, dot
 * colour and popup are overwritten when its project is shown again, so that
 * handle identity is observable. The `Synchronizer` owns the index from
 * project id to handle. Attaching to and detaching from the layer group is
 * modelled only through membership in the index.
 */
module MarkerSync {
  import opened Projects
  import opened Colors

  datatype Option<T> = None | Some(value: T)

  /**
   * What a marker displays: its position, its dot colour and the record its
   * popup was last rendered from (the popup HTML itself is not modelled).
   */
  datatype Look = Look(pos: LatLng, color: string, popup: Project)

  /** What a marker shows for project `p` once it has been created or refreshed. */
  function LookOf(p: Project): Look
  {
    Look(p.pos, MarkerColor(p.category), p)
  }

  /** A map overlay handle. */
  class Marker {
    var pos: LatLng
    var color: string
    var popup: Project

    /** `L.marker([p.lat, p.lng], { icon }).bindPopup(projectPopup(p))`. */
    constructor (p: Project)
      ensures Shown() == LookOf(p)
    {
      pos := p.pos;
      color := MarkerColor(p.category);
      popup := p;
    }

    function Shown(): Look
      reads this
    {
      Look(pos, color, popup)
    }

    /** `setLatLng(...).setIcon(...).bindPopup(...)`: show project `p` instead. */
    method Refresh(p: Project)
      modifies this
      ensures Shown() == LookOf(p)
    {
      pos := p.pos;
      color := MarkerColor(p.category);
      popup := p;
    }
  }

  /**
   * What the index should display after a render over `projects`: every
   * passing project, taken in dataset order, sets the entry for its id (so
   * with repeated ids the last passing record wins).
   */
  function Expected(projects: seq<Project>, f: Filter): map<string, Look>
    decreases |projects|
  {
    if projects == [] then map[]
    else
      var p := projects[|projects| - 1];
      var before := Expected(projects[..|projects| - 1], f);
      if Passes(p, f) then before[p.id := LookOf(p)] else before
  }

  /** The expected display has an entry for exactly the passing ids. */
  lemma {:induction false} ExpectedKeys(projects: seq<Project>, f: Filter)
    ensures Expected(projects, f).Keys == VisibleIds(projects, f)
  {
    if projects != [] {
      var n := |projects| - 1;
      var front := projects[..n];
      ExpectedKeys(front, f);
      assert projects == front + [projects[n]];
      assert forall q :: q in projects <==> q in front || q == projects[n];
    }
  }

  /** With unique ids, each passing project is displayed with its own look. */
  lemma {:induction false} ExpectedShowsEach(projects: seq<Project>, f: Filter, i: nat)
    requires UniqueIds(projects)
    requires i < |projects| && Passes(projects[i], f)
    ensures projects[i].id in Expected(projects, f)
    ensures Expected(projects, f)[projects[i].id] == LookOf(projects[i])
  {
    var n := |projects| - 1;
    var front := projects[..n];
    assert UniqueIds(front);
    if i < n {
      assert front[i] == projects[i];
      ExpectedShowsEach(front, f, i);
    }
  }

  /** The positions shown by a display: the points a viewport fit covers. */
  function Positions(display: map<string, Look>): set<LatLng>
  {
    set id | id in display :: display[id].pos
  }

  /** With unique ids, the expected display covers exactly the passing projects' positions. */
  lemma ExpectedPositions(projects: seq<Project>, f: Filter)
    requires UniqueIds(projects)
    ensures Positions(Expected(projects, f)) == set p | p in projects && Passes(p, f) :: p.pos
  {
    var e := Expected(projects, f);
    ExpectedKeys(projects, f);
    forall x | x in Positions(e) ensures exists p :: p in projects && Passes(p, f) && p.pos == x {
      var id :| id in e && e[id].pos == x;
      var p :| p in projects && Passes(p, f) && p.id == id;
      var i :| 0 <= i < |projects| && projects[i] == p;
      ExpectedShowsEach(projects, f, i);
    }
    forall p | p in projects && Passes(p, f) ensures p.pos in Positions(e) {
      var i :| 0 <= i < |projects| && projects[i] == p;
      ExpectedShowsEach(projects, f, i);
    }
  }

  /** One more project of the dataset, as the upsert pass sees it. */
  lemma ExpectedStep(projects: seq<Project>, f: Filter, i: nat)
    requires i < |projects|
    ensures Expected(projects[..i + 1], f) ==
              if Passes(projects[i], f)
              then Expected(projects[..i], f)[projects[i].id := LookOf(projects[i])]
              else Expected(projects[..i], f)
  {
    assert projects[..i + 1][..i] == projects[..i];
  }

  /** Setting a key after a union is setting it in the right-hand map. */
  lemma UpdateAfterUnion<K, V>(before: map<K, V>, now: map<K, V>, k: K, v: V)
    ensures (before + now)[k := v] == before + now[k := v]
  {
  }

  /** Taking one more key out of a map that already lost the keys `gone`. */
  lemma RemoveOneMore<K, V>(m: map<K, V>, gone: set<K>, k: K)
    ensures (m - gone) - {k} == m - (gone + {k})
  {
  }

  /** Dropping from `old + fresh` every key that `fresh` lacks leaves `fresh`. */
  lemma DropStale<K, V>(before: map<K, V>, now: map<K, V>, stale: set<K>)
    requires stale == (before.Keys + now.Keys) - now.Keys
    ensures (before + now) - stale == now
  {
  }

  /**
   * `after` is the index a render with visible ids `visible` leaves behind
   * when it started from `before`: its keys are exactly the visible ids and
   * every id that was already shown keeps its handle.
   */
  ghost predicate Reconciled(before: map<string, Marker>, after: map<string, Marker>, visible: set<string>)
  {
    && after.Keys == visible
    && forall id :: id in after && id in before ==> after[id] == before[id]
  }

  /** Rendering twice with the same filter leaves the same keys and the same handles. */
  lemma ReconcileIdempotent(
    first: map<string, Marker>, second: map<string, Marker>, third: map<string, Marker>,
    visible: set<string>)
    requires Reconciled(first, second, visible) && Reconciled(second, third, visible)
    ensures third == second
  {
    assert third.Keys == second.Keys;
  }

  /** A project that passes two consecutive filters keeps its handle across both renders. */
  lemma HandleSurvivesRefilter(
    first: map<string, Marker>, second: map<string, Marker>, third: map<string, Marker>,
    projects: seq<Project>, f1: Filter, f2: Filter, p: Project)
    requires Reconciled(first, second, VisibleIds(projects, f1))
    requires Reconciled(second, third, VisibleIds(projects, f2))
    requires p in projects && Passes(p, f1) && Passes(p, f2)
    ensures p.id in second && p.id in third && third[p.id] == second[p.id]
  {
  }

  /** A fly-to request: the point to centre on and the popup to open. */
  datatype Flight = Flight(center: LatLng, popup: Project)

  /** Owner of `markerIndex`, the map from project id to marker handle. */
  class Synchronizer {
    var index: map<string, Marker>
    /** What each indexed marker currently displays. */
    ghost var display: map<string, Look>
    /** Every marker this synchronizer has created: the objects it may update. */
    ghost var Repr: set<Marker>

    /**
     * `display` is what the indexed markers show, and each marker's popup is
     * that of the project it is indexed under (so no two ids share a handle).
     */
    ghost predicate Valid()
      reads this, Repr
    {
      && display.Keys == index.Keys
      && forall id :: id in index ==>
           && index[id] in Repr
           && index[id].Shown() == display[id]
           && display[id].popup.id == id
    }

    /** `const markerIndex = new Map()`. */
    constructor ()
      ensures Valid() && index == map[] && display == map[] && Repr == {}
    {
      index := map[];
      display := map[];
      Repr := {};
    }

    /**
     * `addOrUpdateMarker(p)`: refresh the handle already indexed under `p.id`
     * in place, or create one and index it.
     */
    method AddOrUpdateMarker(p: Project)
      requires Valid()
      modifies this, Repr
      ensures Valid() && fresh(Repr - old(Repr))
      ensures display == old(display)[p.id := LookOf(p)]
      ensures index.Keys == old(index).Keys + {p.id}
      ensures forall id :: id in old(index) ==> index[id] == old(index)[id]
      ensures p.id !in old(index) ==> fresh(index[p.id])
      ensures forall id :: id in old(index) && id != p.id ==> unchanged(old(index)[id])
    {
      if p.id in index {
        RefreshIndexed(p);
      } else {
        IndexNew(p);
      }
    }

    /** The branch of `addOrUpdateMarker` for an id already indexed: its handle is updated in place. */
    method RefreshIndexed(p: Project)
      requires Valid() && p.id in index
      modifies Repr, `display
      ensures Valid() && index == old(index) && Repr == old(Repr)
      ensures display == old(display)[p.id := LookOf(p)]
      ensures forall id :: id in index && id != p.id ==> unchanged(index[id])
    {
      var existing := index[p.id];
      assert forall id :: id in index && id != p.id ==> index[id] != existing;
      existing.Refresh(p);
      display := display[p.id := LookOf(p)];
      forall id | id in index
        ensures index[id] in Repr && index[id].Shown() == display[id] && display[id].popup.id == id
      {
        if id != p.id {
          assert index[id] != existing;
        }
      }
    }

    /** The branch of `addOrUpdateMarker` for a new id: a marker is created and indexed. */
    method IndexNew(p: Project)
      requires Valid() && p.id !in index
      modifies this
      ensures Valid() && fresh(Repr - old(Repr))
      ensures p.id in index && fresh(index[p.id]) && index == old(index)[p.id := index[p.id]]
      ensures display == old(display)[p.id := LookOf(p)]
    {
      var m := new Marker(p);
      Repr := Repr + {m};
      index := index[p.id := m];
      display := display[p.id := LookOf(p)];
    }

    /** `removeMarker(id)`: drop the entry for `id` if there is one. */
    method RemoveMarker(id: string)
      requires Valid()
      modifies this
      ensures Valid() && Repr == old(Repr)
      ensures index == old(index) - {id}
      ensures display == old(display) - {id}
    {
      if id in index {
        index := index - {id};
        display := display - {id};
      }
    }

    /**
     * Since the start of a pass that began from `index0` showing `display0`
     * with markers `repr0`, the updates `e` have been applied: the display is
     * `display0` overwritten by `e`, every id already indexed keeps its
     * handle, and every newly indexed id has a handle created since.
     */
    ghost predicate Applied(index0: map<string, Marker>, display0: map<string, Look>, repr0: set<Marker>, e: map<string, Look>)
      reads this
    {
      && display == display0 + e
      && (forall id :: id in index0 ==> id in index && index[id] == index0[id])
      && (forall id :: id in index && id !in index0 ==> index[id] !in repr0)
    }

    /** A handle indexed in `index0` under an id the updates `e` do not touch still shows what `display0` says. */
    static ghost predicate Untouched(index0: map<string, Marker>, display0: map<string, Look>, e: map<string, Look>)
      reads index0.Values
    {
      forall id :: id in index0 && id in display0 && id !in e ==> index0[id].Shown() == display0[id]
    }

    /**
     * The upsert pass of `render()`: every passing project is added or
     * refreshed, and its id collected into `keep`. Nothing is removed.
     */
    method UpsertPassing(projects: seq<Project>, f: Filter) returns (keep: set<string>)
      requires Valid()
      modifies this, Repr
      ensures Valid() && fresh(Repr - old(Repr))
      ensures keep == Expected(projects, f).Keys
      ensures Applied(old(index), old(display), old(Repr), Expected(projects, f))
      ensures Untouched(old(index), old(display), Expected(projects, f))
    {
      keep := {};
      ghost var e: map<string, Look> := map[];
      var i := 0;
      while i < |projects|
        invariant 0 <= i <= |projects|
        invariant Valid() && fresh(Repr - old(Repr))
        invariant e == Expected(projects[..i], f) && keep == e.Keys
        invariant Applied(old(index), old(display), old(Repr), e)
        invariant Untouched(old(index), old(display), e)
      {
        ExpectedStep(projects, f, i);
        keep, e := Visit(projects[i], f, keep, old(index), old(display), old(Repr), e);
        i := i + 1;
      }
      assert projects[..i] == projects;
    }

    /** The `forEach` callback of the upsert pass, for one project `p`. */
    method Visit(p: Project, f: Filter, keep: set<string>,
                 ghost index0: map<string, Marker>, ghost display0: map<string, Look>, ghost repr0: set<Marker>,
                 ghost e: map<string, Look>)
      returns (keep': set<string>, ghost e': map<string, Look>)
      requires Valid() && Applied(index0, display0, repr0, e) && Untouched(index0, display0, e)
      requires keep == e.Keys
      modifies this, Repr
      ensures Valid() && fresh(Repr - old(Repr))
      ensures e' == (if Passes(p, f) then e[p.id := LookOf(p)] else e)
      ensures keep' == (if Passes(p, f) then keep + {p.id} else keep) && keep' == e'.Keys
      ensures Applied(index0, display0, repr0, e') && Untouched(index0, display0, e')
      ensures forall id :: id in old(index) ==> id in index && index[id] == old(index)[id]
      ensures !Passes(p, f) ==> index == old(index) && display == old(display)
    {
      keep', e' := keep, e;
      if Passes(p, f) {
        UpdateAfterUnion(display0, e, p.id, LookOf(p));
        AddOrUpdateMarker(p);
        keep' := keep + {p.id};
        e' := e[p.id := LookOf(p)];
      }
    }

    /**
     * The removal pass of `render()`: walks a snapshot of the index keys and
     * removes every id that is not in `keep`. Handles are not touched.
     */
    method RemoveHidden(keep: set<string>)
      requires Valid()
      modifies this
      ensures Valid() && Repr == old(Repr)
      ensures index == old(index) - (old(index).Keys - keep)
      ensures display == old(display) - (old(index).Keys - keep)
    {
      var ids := index.Keys;
      while ids != {}
        invariant ids <= old(index).Keys
        invariant Valid() && Repr == old(Repr)
        invariant index == old(index) - ((old(index).Keys - ids) - keep)
        invariant display == old(display) - ((old(index).Keys - ids) - keep)
        decreases ids
      {
        var id :| id in ids;
        ghost var gone := (old(index).Keys - ids) - keep;
        if id !in keep {
          RemoveMarker(id);
          RemoveOneMore(old(index), gone, id);
          RemoveOneMore(old(display), gone, id);
          assert (old(index).Keys - (ids - {id})) - keep == gone + {id};
        } else {
          assert (old(index).Keys - (ids - {id})) - keep == gone;
        }
        ids := ids - {id};
      }
    }

    /**
     * The marker, list and fit steps of `render()` for the dataset `projects`
     * and the filter `f` read from the controls. Returns the `keep` set, the
     * list items, and the points the viewport is fitted to (`None` when no
     * fit is requested).
     */
    method Render(projects: seq<Project>, f: Filter)
      returns (keep: set<string>, items: seq<Project>, fit: Option<set<LatLng>>)
      requires Valid()
      modifies this, Repr
      ensures Valid() && fresh(Repr - old(Repr))
      ensures keep == VisibleIds(projects, f) && index.Keys == keep
      ensures display == Expected(projects, f)
      ensures Reconciled(old(index), index, keep)
      ensures forall id :: id in index && id !in old(index) ==> fresh(index[id])
      ensures forall id :: id in old(index) && id !in index ==> old(index)[id].Shown() == old(display)[id]
      ensures items == Filtered(projects, f)
      ensures fit.Some? <==> keep != {}
      ensures fit.Some? ==> fit.value == Positions(display)
      ensures fit.Some? && UniqueIds(projects) ==>
                fit.value == set p | p in projects && Passes(p, f) :: p.pos
    {
      // Update markers
      keep := UpsertPassing(projects, f);
      ExpectedKeys(projects, f);
      ghost var shown := index;
      // Remove hidden
      RemoveHidden(keep);
      assert index.Keys == keep;
      DropStale(old(display), Expected(projects, f), shown.Keys - keep);

      // Update list
      items := Filtered(projects, f);

      // Fit to visible markers
      fit := FitToVisible(keep);
      if UniqueIds(projects) {
        ExpectedPositions(projects, f);
      }
    }

    /**
     * The fit step of `render()`: when `keep` is non-empty, the positions of
     * all indexed markers, which the viewport is fitted to; otherwise no fit.
     */
    method FitToVisible(keep: set<string>) returns (fit: Option<set<LatLng>>)
      requires Valid()
      ensures fit.Some? <==> keep != {}
      ensures fit.Some? ==> fit.value == Positions(display)
    {
      if |keep| > 0 {
        var shown := map id | id in index :: index[id].Shown();
        assert shown == display;
        fit := Some(Positions(shown));
      } else {
        fit := None;
      }
    }

    /**
     * `flyTo(id)`: a request to centre on the marker indexed under `id` and
     * open its popup, or `None` when `id` is not shown.
     */
    method FlyTo(id: string) returns (flight: Option<Flight>)
      requires Valid()
      ensures flight.None? <==> id !in display
      ensures flight.Some? ==> flight.value == Flight(display[id].pos, display[id].popup)
    {
      if id in index {
        var m := index[id];
        flight := Some(Flight(m.pos, m.popup));
      } else {
        flight := None;
      }
    }
  }
}
