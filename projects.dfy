/**
 * Project records, the filter chosen in the controls, the filter predicate
 * `passes` and the list derivation of `render` (script.js:150-155, 169).
 */
module Projects {

  /** A map position: latitude and longitude as the record holds them. */
  datatype LatLng = LatLng(lat: real, lng: real)

  /**
   * One infrastructure project. Name, budget, dates, links and description
   * only feed the popup and list-card HTML and are not part of this model.
   */
  datatype Project = Project(
    id: string,
    category: string,
    status: string,
    city: string,
    pos: LatLng)

  /**
   * The control values one render works from: the selected city (the empty
   * string is the "any city" option) and the checked status and category
   * values, in the order of their checkboxes.
   */
  datatype Filter = Filter(city: string, status: seq<string>, category: seq<string>)

  /** `Array.prototype.includes`: a left-to-right scan for an equal element. */
  function Includes<T(==)>(xs: seq<T>, x: T): bool
  {
    |xs| > 0 && (xs[0] == x || Includes(xs[1..], x))
  }

  lemma {:induction false} IncludesIsMembership<T>(xs: seq<T>, x: T)
    ensures Includes(xs, x) <==> x in xs
  {
    if |xs| > 0 {
      IncludesIsMembership(xs[1..], x);
      assert xs == [xs[0]] + xs[1..];
    }
  }

  /** `passes(p, f)`: the city check, then both checkbox groups. */
  predicate Passes(p: Project, f: Filter)
  {
    var cityOk := f.city == "" || p.city == f.city;
    var statusOk := Includes(f.status, p.status);
    var categoryOk := Includes(f.category, p.category);
    cityOk && statusOk && categoryOk
  }

  /** The filter in terms of membership: an exact city match unless no city is chosen. */
  lemma PassesExactly(p: Project, f: Filter)
    ensures Passes(p, f) <==>
              && (f.city == "" || p.city == f.city)
              && p.status in f.status
              && p.category in f.category
  {
    IncludesIsMembership(f.status, p.status);
    IncludesIsMembership(f.category, p.category);
  }

  /** Ids are unique across a dataset. */
  predicate UniqueIds(projects: seq<Project>)
  {
    forall i, j :: 0 <= i < j < |projects| ==> projects[i].id != projects[j].id
  }

  /** The ids of the projects that pass `f`. */
  function VisibleIds(projects: seq<Project>, f: Filter): set<string>
  {
    set p | p in projects && Passes(p, f) :: p.id
  }

  /** `DATA.projects.filter(p => passes(p, f))`, the projects the list shows. */
  function Filtered(projects: seq<Project>, f: Filter): (items: seq<Project>)
    ensures |items| <= |projects|
  {
    if projects == [] then []
    else
      var rest := Filtered(projects[1..], f);
      if Passes(projects[0], f) then [projects[0]] + rest else rest
  }

  /** The list holds exactly the passing projects of the dataset. */
  lemma {:induction false} FilteredMembers(projects: seq<Project>, f: Filter)
    ensures forall p :: p in Filtered(projects, f) <==> p in projects && Passes(p, f)
  {
    if projects != [] {
      FilteredMembers(projects[1..], f);
      assert forall p :: p in projects <==> p == projects[0] || p in projects[1..];
    }
  }

  /** An empty status group or an empty category group hides every project, whatever the city. */
  lemma {:induction false} EmptySelectionHidesAll(projects: seq<Project>, f: Filter)
    requires f.status == [] || f.category == []
    ensures Filtered(projects, f) == []
    ensures VisibleIds(projects, f) == {}
  {
    if projects != [] {
      EmptySelectionHidesAll(projects[1..], f);
      assert !Passes(projects[0], f);
    }
  }

  /** When every project passes, the list is the whole dataset. */
  lemma {:induction false} AllPassingListed(projects: seq<Project>, f: Filter)
    requires forall i :: 0 <= i < |projects| ==> Passes(projects[i], f)
    ensures Filtered(projects, f) == projects
  {
    if projects != [] {
      AllPassingListed(projects[1..], f);
    }
  }

  /** The ids of the listed items are exactly the ids the markers are kept for. */
  lemma ListedIdsAreVisibleIds(projects: seq<Project>, f: Filter)
    ensures (set p | p in Filtered(projects, f) :: p.id) == VisibleIds(projects, f)
  {
    FilteredMembers(projects, f);
  }

  /** `idx` lists, strictly increasing, positions of `projects` whose records make up `items`. */
  ghost predicate PositionsOf(idx: seq<nat>, items: seq<Project>, projects: seq<Project>)
  {
    && |idx| == |items|
    && (forall k :: 0 <= k < |idx| ==> idx[k] < |projects| && items[k] == projects[idx[k]])
    && (forall k, l :: 0 <= k < l < |idx| ==> idx[k] < idx[l])
  }

  /**
   * The list is the dataset restricted to the passing positions, in dataset
   * order: `idx` lists those positions strictly increasing, and every
   * passing position is among them.
   */
  lemma {:induction false} FilteredKeepsOrder(projects: seq<Project>, f: Filter) returns (idx: seq<nat>)
    ensures PositionsOf(idx, Filtered(projects, f), projects)
    ensures forall i :: 0 <= i < |projects| && Passes(projects[i], f) ==> i in idx
  {
    if projects == [] {
      idx := [];
    } else {
      var tail := FilteredKeepsOrder(projects[1..], f);
      var rest := Filtered(projects[1..], f);
      var shifted := ShiftPositions(tail, rest, projects, f);
      if Passes(projects[0], f) {
        idx := [0] + shifted;
        PrependPosition(shifted, rest, projects);
        assert Filtered(projects, f) == [projects[0]] + rest;
        assert forall i :: 1 <= i < |projects| && i in shifted ==> i in idx;
      } else {
        idx := shifted;
        assert Filtered(projects, f) == rest;
      }
    }
  }

  /** Position 0 put in front of positions that all lie beyond it. */
  lemma PrependPosition(shifted: seq<nat>, items: seq<Project>, projects: seq<Project>)
    requires projects != [] && PositionsOf(shifted, items, projects)
    requires forall k :: 0 <= k < |shifted| ==> shifted[k] >= 1
    ensures PositionsOf([0] + shifted, [projects[0]] + items, projects)
  {
    var idx := [0] + shifted;
    assert forall k :: 1 <= k < |idx| ==> idx[k] == shifted[k - 1];
  }

  /**
   * Positions in the tail of a dataset, moved up by one to be positions in
   * the whole; the passing positions of the tail become those of the whole
   * beyond position 0.
   */
  lemma ShiftPositions(tail: seq<nat>, items: seq<Project>, projects: seq<Project>, f: Filter)
    returns (shifted: seq<nat>)
    requires projects != [] && PositionsOf(tail, items, projects[1..])
    requires forall i :: 0 <= i < |projects| - 1 && Passes(projects[1..][i], f) ==> i in tail
    ensures PositionsOf(shifted, items, projects)
    ensures forall k :: 0 <= k < |shifted| ==> shifted[k] >= 1
    ensures forall i :: 1 <= i < |projects| && Passes(projects[i], f) ==> i in shifted
  {
    shifted := seq(|tail|, k requires 0 <= k < |tail| => tail[k] + 1);
    ShiftedAreWhole(tail, shifted, items, projects);
    ShiftedCover(tail, shifted, projects, f);
  }

  /** Tail positions moved up by one pick the same records from the whole dataset. */
  lemma ShiftedAreWhole(tail: seq<nat>, shifted: seq<nat>, items: seq<Project>, projects: seq<Project>)
    requires projects != [] && PositionsOf(tail, items, projects[1..])
    requires |shifted| == |tail| && forall k :: 0 <= k < |tail| ==> shifted[k] == tail[k] + 1
    ensures PositionsOf(shifted, items, projects)
  {
    forall k | 0 <= k < |shifted|
      ensures shifted[k] < |projects| && items[k] == projects[shifted[k]]
    {
      assert projects[1..][tail[k]] == projects[tail[k] + 1];
    }
  }

  /** Every passing position of the whole beyond 0 is a moved-up passing position of the tail. */
  lemma ShiftedCover(tail: seq<nat>, shifted: seq<nat>, projects: seq<Project>, f: Filter)
    requires projects != []
    requires forall i :: 0 <= i < |projects| - 1 && Passes(projects[1..][i], f) ==> i in tail
    requires |shifted| == |tail| && forall k :: 0 <= k < |tail| ==> shifted[k] == tail[k] + 1
    ensures forall i :: 1 <= i < |projects| && Passes(projects[i], f) ==> i in shifted
  {
    forall i | 1 <= i < |projects| && Passes(projects[i], f) ensures i in shifted {
      assert projects[1..][i - 1] == projects[i];
      var k :| 0 <= k < |tail| && tail[k] == i - 1;
      assert shifted[k] == i;
    }
  }

  /** With unique ids in the dataset, the list never shows a project twice. */
  lemma {:induction false} FilteredHasNoDuplicates(projects: seq<Project>, f: Filter)
    requires UniqueIds(projects)
    ensures UniqueIds(Filtered(projects, f))
  {
    if projects != [] {
      FilteredHasNoDuplicates(projects[1..], f);
      FilteredMembers(projects[1..], f);
      var rest := Filtered(projects[1..], f);
      forall q | q in rest ensures q.id != projects[0].id {
        var j :| 0 <= j < |projects[1..]| && projects[1..][j] == q;
        assert projects[j + 1] == q;
      }
    }
  }
}
