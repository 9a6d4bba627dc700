/**
 * The demo Charleston dataset (script.js:2-77) as a concrete witness: what
 * the list and the markers hold with every box checked and after narrowing
 * the status group to "active".
 */
module Charleston {
  import opened Projects
  import opened MarkerSync

  /** `DATA.projects`, without the fields only the popup and list HTML use. */
  function Dataset(): (projects: seq<Project>)
    ensures |projects| == 6
  {
    [ Project("CHS-001", "resilience", "active", "Charleston, SC", LatLng(32.7749, -79.9496)),
      Project("CHS-002", "road", "planned", "Charleston, SC", LatLng(32.8670, -80.0200)),
      Project("CHS-003", "building", "planned", "Charleston, SC", LatLng(32.7865, -79.9240)),
      Project("CHS-004", "transit", "active", "Charleston, SC", LatLng(32.7905, -79.9585)),
      Project("CHS-005", "building", "active", "Charleston, SC", LatLng(32.8986, -80.0405)),
      Project("CHS-006", "park", "planned", "Charleston, SC", LatLng(32.7830, -80.0120)) ]
  }

  /** Any city, both statuses and every category checked. */
  function Everything(): Filter
  {
    Filter("", ["active", "planned"], ["resilience", "road", "building", "transit", "park"])
  }

  /** Any city, only "active" checked, every category checked. */
  function ActiveOnly(): Filter
  {
    Filter("", ["active"], ["resilience", "road", "building", "transit", "park"])
  }

  /** The ids of a list, in list order. */
  function Ids(items: seq<Project>): (ids: seq<string>)
    ensures |ids| == |items|
    ensures forall k :: 0 <= k < |items| ==> ids[k] == items[k].id
  {
    if items == [] then [] else [items[0].id] + Ids(items[1..])
  }

  /** The demo ids are unique. */
  lemma DatasetIdsUnique()
    ensures UniqueIds(Dataset())
  {
    var d := Dataset();
    assert forall i :: 0 <= i < 6 ==> d[i].id[4..] == ["001", "002", "003", "004", "005", "006"][i];
  }

  /** With every box checked, every project passes. */
  lemma EverythingPassesAll()
    ensures forall i :: 0 <= i < |Dataset()| ==> Passes(Dataset()[i], Everything())
  {
  }

  /** With every box checked, the list is the whole dataset. */
  lemma EverythingListsAll()
    ensures Filtered(Dataset(), Everything()) == Dataset()
  {
    EverythingPassesAll();
    AllPassingListed(Dataset(), Everything());
  }

  /** The demo dataset has these six ids. */
  lemma DatasetIds()
    ensures (set p | p in Dataset() :: p.id) ==
              {"CHS-001", "CHS-002", "CHS-003", "CHS-004", "CHS-005", "CHS-006"}
  {
    var d := Dataset();
    forall p | p in d
      ensures p.id in {"CHS-001", "CHS-002", "CHS-003", "CHS-004", "CHS-005", "CHS-006"}
    {
      var i :| 0 <= i < 6 && d[i] == p;
    }
    assert d[0].id == "CHS-001" && d[1].id == "CHS-002" && d[2].id == "CHS-003";
    assert d[3].id == "CHS-004" && d[4].id == "CHS-005" && d[5].id == "CHS-006";
  }

  /** With every box checked, all six projects get a marker. */
  lemma EverythingShowsAll()
    ensures VisibleIds(Dataset(), Everything()) ==
              {"CHS-001", "CHS-002", "CHS-003", "CHS-004", "CHS-005", "CHS-006"}
  {
    DatasetIds();
    EverythingPassesAll();
  }

  /** Narrowed to active projects, the seawall, the bridge and the airport are listed, in that order. */
  lemma ActiveOnlyListsThree()
    ensures Filtered(Dataset(), ActiveOnly()) == [Dataset()[0], Dataset()[3], Dataset()[4]]
  {
  }

  /** Narrowed to active projects, exactly those three keep a marker. */
  lemma ActiveOnlyShowsThree()
    ensures VisibleIds(Dataset(), ActiveOnly()) == {"CHS-001", "CHS-004", "CHS-005"}
  {
    var d := Dataset();
    ActiveOnlyListsThree();
    ListedIdsAreVisibleIds(d, ActiveOnly());
  }

  /**
   * Across a render with every box checked followed by the narrowing, the
   * seawall marker is the same handle: it was refreshed, not recreated.
   */
  lemma SeawallKeepsItsHandle(first: map<string, Marker>, second: map<string, Marker>, third: map<string, Marker>)
    requires Reconciled(first, second, VisibleIds(Dataset(), Everything()))
    requires Reconciled(second, third, VisibleIds(Dataset(), ActiveOnly()))
    ensures "CHS-001" in third && third["CHS-001"] == second["CHS-001"]
  {
    EverythingShowsAll();
    ActiveOnlyShowsThree();
  }

  /** The list narrowed to active projects, by id. */
  lemma ActiveOnlyListedIds()
    ensures Ids(Filtered(Dataset(), ActiveOnly())) == ["CHS-001", "CHS-004", "CHS-005"]
  {
    ActiveOnlyListsThree();
  }

  /**
   * After the narrowing the bridge marker is blue, at the bridge, with the
   * bridge's popup: what a fly-to request for it centres on and opens.
   */
  lemma BridgeMarkerAfterNarrowing()
    ensures "CHS-004" in Expected(Dataset(), ActiveOnly())
    ensures Expected(Dataset(), ActiveOnly())["CHS-004"] ==
              Look(LatLng(32.7905, -79.9585), "blue", Dataset()[3])
  {
    DatasetIdsUnique();
    ExpectedShowsEach(Dataset(), ActiveOnly(), 3);
  }

  /** After the narrowing the planned I-526 project has no marker, so a fly-to request for it does nothing. */
  lemma PlannedHiddenAfterNarrowing()
    ensures "CHS-002" !in Expected(Dataset(), ActiveOnly())
  {
    ExpectedKeys(Dataset(), ActiveOnly());
    ActiveOnlyShowsThree();
  }
}
