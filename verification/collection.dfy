/** The saved-developer collection and the current selection, owned by the top-level
    component (App.tsx). The collection is passed explicitly instead of living in
    browser storage; the clock is a parameter. */
module Collection {
  import opened Wrappers
  import opened Types
  import Seqs

  /** The list of saved developers, and the developer whose apps are being viewed. */
  datatype AppState = AppState(developers: seq<Developer>, selected: Option<Developer>)

  predicate HasId(devs: seq<Developer>, id: int) {
    exists i :: 0 <= i < |devs| && devs[i].id == id
  }

  function IdIs(id: int): Developer -> bool {
    (d: Developer) => d.id == id
  }

  function IdIsNot(id: int): Developer -> bool {
    (d: Developer) => d.id != id
  }

  /** How many saved developers carry `id`. */
  function CountId(devs: seq<Developer>, id: int): nat {
    |Seqs.Filter(devs, IdIs(id))|
  }

  /** No two saved developers share an id. */
  predicate UniqueIds(devs: seq<Developer>) {
    forall i, j :: 0 <= i < j < |devs| ==> devs[i].id != devs[j].id
  }

  lemma {:induction false} CountIdPositive(devs: seq<Developer>, id: int)
    ensures CountId(devs, id) > 0 <==> HasId(devs, id)
  {
    var f := Seqs.Filter(devs, IdIs(id));
    if HasId(devs, id) {
      var i :| 0 <= i < |devs| && devs[i].id == id;
      assert IdIs(id)(devs[i]);
      assert devs[i] in f;
    }
    if |f| > 0 {
      assert f[0] in f;
      assert IdIs(id)(f[0]);
      var i :| 0 <= i < |devs| && devs[i] == f[0];
    }
  }

  lemma {:induction false} UniqueIdsCountAtMostOne(devs: seq<Developer>, id: int)
    requires UniqueIds(devs)
    ensures CountId(devs, id) <= 1
    decreases |devs|
  {
    if |devs| > 0 {
      UniqueIdsCountAtMostOne(devs[1..], id);
      assert devs == [devs[0]] + devs[1..];
      if devs[0].id == id {
        assert !HasId(devs[1..], id) by {
          assert forall i :: 0 <= i < |devs[1..]| ==> devs[1..][i].id == devs[i + 1].id != devs[0].id;
        }
        CountIdPositive(devs[1..], id);
      }
    }
  }

  /** The record saved for newly resolved developer info. */
  function NewDeveloper(info: DeveloperInfo, now: string): Developer {
    Developer(info.id, info.name, info.url, now, info.iconUrl, Some([]))
  }

  /** `handleAddDeveloper`: adding an id already saved changes nothing; otherwise a new
      record stamped with `now` and no tags goes in front of the unchanged list. */
  function AddDeveloper(s: AppState, info: DeveloperInfo, now: string): (r: AppState)
    ensures r.selected == s.selected
    ensures HasId(s.developers, info.id) ==> r == s
    ensures !HasId(s.developers, info.id) ==>
      && |r.developers| == |s.developers| + 1
      && r.developers[1..] == s.developers
      && r.developers[0].id == info.id
      && r.developers[0].name == info.name
      && r.developers[0].url == info.url
      && r.developers[0].iconUrl == info.iconUrl
      && r.developers[0].dateAdded == now
      && r.developers[0].tags == Some([])
    ensures HasId(r.developers, info.id)
  {
    if HasId(s.developers, info.id) then s
    else
      var devs := [NewDeveloper(info, now)] + s.developers;
      assert devs[0].id == info.id;
      s.(developers := devs)
  }

  /** Adding keeps ids unique. */
  lemma AddKeepsUniqueIds(s: AppState, info: DeveloperInfo, now: string)
    requires UniqueIds(s.developers)
    ensures UniqueIds(AddDeveloper(s, info, now).developers)
  {
    var r := AddDeveloper(s, info, now).developers;
    if !HasId(s.developers, info.id) {
      forall i, j | 0 <= i < j < |r|
        ensures r[i].id != r[j].id
      {
        assert r[j] == s.developers[j - 1];
        if i > 0 { assert r[i] == s.developers[i - 1]; }
      }
    }
  }

  /** After adding, the id occurs exactly once if it was absent, and as often as before
      otherwise. */
  lemma {:induction false} AddCount(s: AppState, info: DeveloperInfo, now: string)
    ensures var before := CountId(s.developers, info.id);
            CountId(AddDeveloper(s, info, now).developers, info.id) == if before == 0 then 1 else before
  {
    CountIdPositive(s.developers, info.id);
    var r := AddDeveloper(s, info, now).developers;
    if !HasId(s.developers, info.id) {
      assert r == [r[0]] + s.developers;
      assert Seqs.Filter(r, IdIs(info.id)) == [r[0]] + Seqs.Filter(s.developers, IdIs(info.id));
    }
  }

  /** Adding the same id twice leaves the state as the first add left it. */
  lemma AddTwice(s: AppState, a: DeveloperInfo, b: DeveloperInfo, t1: string, t2: string)
    requires a.id == b.id
    ensures AddDeveloper(AddDeveloper(s, a, t1), b, t2) == AddDeveloper(s, a, t1)
  {
  }

  /** A list that held the id at most once holds it exactly once after two adds. */
  lemma AddTwiceCount(s: AppState, a: DeveloperInfo, b: DeveloperInfo, t1: string, t2: string)
    requires a.id == b.id
    requires CountId(s.developers, a.id) <= 1
    ensures CountId(AddDeveloper(AddDeveloper(s, a, t1), b, t2).developers, a.id) == 1
  {
    AddTwice(s, a, b, t1, t2);
    AddCount(s, a, t1);
  }

  /** `handleDeleteDeveloper`: keeps exactly the developers with another id, in order,
      and clears the selection exactly when the selected developer has this id. */
  function DeleteDeveloper(s: AppState, id: int): (r: AppState)
    ensures forall d :: d in r.developers <==> d in s.developers && d.id != id
    ensures forall d :: multiset(r.developers)[d] == if d.id != id then multiset(s.developers)[d] else 0
    ensures Seqs.IsSubsequence(r.developers, s.developers)
    ensures !HasId(r.developers, id)
    ensures r.selected.None? <==> s.selected.None? || s.selected.value.id == id
    ensures r.selected.Some? ==> r.selected == s.selected
  {
    var devs := Seqs.Filter(s.developers, IdIsNot(id));
    assert forall i :: 0 <= i < |devs| ==> devs[i] in devs;
    var sel := if s.selected.Some? && s.selected.value.id == id then None else s.selected;
    AppState(devs, sel)
  }

  /** Deleting twice is deleting once. */
  lemma DeleteIdempotent(s: AppState, id: int)
    ensures DeleteDeveloper(DeleteDeveloper(s, id), id) == DeleteDeveloper(s, id)
  {
    Seqs.FilterIdempotent(s.developers, IdIsNot(id));
  }

  /** Deleting an id that is not saved keeps the list. */
  lemma DeleteAbsent(s: AppState, id: int)
    requires !HasId(s.developers, id)
    ensures DeleteDeveloper(s, id).developers == s.developers
  {
    Seqs.FilterAll(s.developers, IdIsNot(id));
  }

  /** `handleUpdateDeveloper`: every developer with the updated id is replaced in place,
      every other one is left as it is. */
  function UpdateDeveloper(s: AppState, updated: Developer): (r: AppState)
    ensures r.selected == s.selected
    ensures |r.developers| == |s.developers|
    ensures forall i :: 0 <= i < |s.developers| ==>
      r.developers[i] == if s.developers[i].id == updated.id then updated else s.developers[i]
  {
    var devs := s.developers;
    s.(developers := seq(|devs|, i requires 0 <= i < |devs| =>
                           if devs[i].id == updated.id then updated else devs[i]))
  }

  /** Updating keeps every position's id, so it keeps ids unique. */
  lemma UpdateKeepsIds(s: AppState, updated: Developer)
    ensures forall i :: 0 <= i < |s.developers| ==>
              UpdateDeveloper(s, updated).developers[i].id == s.developers[i].id
    ensures UniqueIds(s.developers) ==> UniqueIds(UpdateDeveloper(s, updated).developers)
  {
  }

  /** Updating an id that is not saved changes nothing. */
  lemma UpdateUnknownIsNoop(s: AppState, updated: Developer)
    requires !HasId(s.developers, updated.id)
    ensures UpdateDeveloper(s, updated) == s
  {
    assert UpdateDeveloper(s, updated).developers == s.developers;
  }

  /** Updating twice with the same record is updating once. */
  lemma UpdateIdempotent(s: AppState, updated: Developer)
    ensures UpdateDeveloper(UpdateDeveloper(s, updated), updated) == UpdateDeveloper(s, updated)
  {
    assert UpdateDeveloper(UpdateDeveloper(s, updated), updated).developers
        == UpdateDeveloper(s, updated).developers;
  }

  /** `handleImportDevelopers`: the imported list replaces the collection wholesale,
      whatever it held; the selection is not touched. */
  function ImportDevelopers(s: AppState, imported: seq<Developer>): (r: AppState)
    ensures r.developers == imported
    ensures r.selected == s.selected
  {
    s.(developers := imported)
  }

  /** `handleSelectDeveloper`: the developer whose apps are shown; the list is kept. */
  function SelectDeveloper(s: AppState, d: Developer): (r: AppState)
    ensures r.developers == s.developers
    ensures r.selected == Some(d)
  {
    s.(selected := Some(d))
  }

  /** `handleBackToDevelopers`: back to the list; the list is kept. */
  function BackToDevelopers(s: AppState): (r: AppState)
    ensures r.developers == s.developers
    ensures r.selected.None?
  {
    s.(selected := None)
  }

  /** Deleting the developer being viewed returns to the list, exactly as going back
      would, with the developer gone. */
  lemma DeleteSelectedGoesBack(s: AppState, d: Developer)
    ensures DeleteDeveloper(SelectDeveloper(s, d), d.id)
         == BackToDevelopers(DeleteDeveloper(s, d.id))
  {
  }
}
