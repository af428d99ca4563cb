/** The saved-developer screen (components/DeveloperList.tsx): the tag bar, the tag
    filter, sorting and its toggle, saving edited tags, importing a JSON file, and the
    two ways of adding a developer. Collation (`localeCompare`) is an abstract total
    preorder `nameLe` on names, with `nameLe(a, b)` standing for
    `a.localeCompare(b) <= 0`; date parsing is an abstract `timeOf`. */
module DeveloperList {
  import opened Wrappers
  import opened Strings
  import opened Types
  import opened Sorting
  import opened Collection
  import ItunesService
  import Seqs

  // ---------------------------------------------------------------------------
  // The tag bar: every tag in use, sorted, once each

  /** Strictly increasing in the default string order: sorted and duplicate-free. */
  predicate StrictlySorted(s: seq<string>) {
    forall i, j :: 0 <= i < j < |s| ==> StrLe(s[i], s[j]) && s[i] != s[j]
  }

  lemma StrLtTransitive(a: string, b: string, c: string)
    requires StrLe(a, b) && a != b && StrLe(b, c)
    ensures StrLe(a, c) && a != c
  {
    StrLeTransitive(a, b, c);
    if StrLe(c, a) {
      StrLeTransitive(b, c, a);
      StrLeAntisymmetric(a, b);
    }
  }

  /** `t` added to a strictly sorted list at its place, unless already there. */
  function InsertTag(t: string, s: seq<string>): (r: seq<string>)
    requires StrictlySorted(s)
    ensures StrictlySorted(r)
    ensures forall x :: x in r <==> x in s || x == t
  {
    if |s| == 0 then [t]
    else if t == s[0] then s
    else if StrLe(t, s[0]) then
      assert forall j :: 0 <= j < |s| ==> StrLe(t, s[j]) && t != s[j] by {
        forall j | 0 <= j < |s|
          ensures StrLe(t, s[j]) && t != s[j]
        {
          if j > 0 { StrLtTransitive(t, s[0], s[j]); }
        }
      }
      [t] + s
    else
      StrLeTotal(t, s[0]);
      var rest := InsertTag(t, s[1..]);
      assert forall x :: x in s <==> x == s[0] || x in s[1..] by {
        assert s == [s[0]] + s[1..];
      }
      assert forall j :: 0 <= j < |rest| ==> StrLe(s[0], rest[j]) && s[0] != rest[j] by {
        forall j | 0 <= j < |rest|
          ensures StrLe(s[0], rest[j]) && s[0] != rest[j]
        {
          assert rest[j] in rest;
          if rest[j] != t {
            var k :| 0 <= k < |s[1..]| && s[1..][k] == rest[j];
            assert s[k + 1] == rest[j];
          }
        }
      }
      [s[0]] + rest
  }

  function InsertTags(ts: seq<string>, acc: seq<string>): (r: seq<string>)
    requires StrictlySorted(acc)
    ensures StrictlySorted(r)
    ensures forall x :: x in r <==> x in acc || x in ts
    decreases |ts|
  {
    if |ts| == 0 then acc
    else
      assert forall x :: x in ts <==> x == ts[0] || x in ts[1..] by {
        assert ts == [ts[0]] + ts[1..];
      }
      InsertTags(ts[1..], InsertTag(ts[0], acc))
  }

  /** `allTags`: the tags of all developers, sorted, each once. */
  function AllTags(devs: seq<Developer>): (r: seq<string>)
    ensures StrictlySorted(r)
    ensures forall t :: t in r <==> exists i :: 0 <= i < |devs| && t in TagsOf(devs[i])
  {
    if |devs| == 0 then []
    else
      var init := devs[..|devs| - 1];
      var r := InsertTags(TagsOf(devs[|devs| - 1]), AllTags(init));
      assert forall i :: 0 <= i < |init| ==> init[i] == devs[i];
      r
  }

  /** A strictly sorted list is determined by its elements, so the tag bar does not
      depend on the order in which tags were first met (the list screen collects them
      in a set first). */
  lemma {:induction false} StrictlySortedUnique(a: seq<string>, b: seq<string>)
    requires StrictlySorted(a) && StrictlySorted(b)
    requires forall x :: x in a <==> x in b
    ensures a == b
    decreases |a|
  {
    if |a| > 0 { assert a[0] in a; }
    if |b| > 0 { assert b[0] in b; }
    if |a| > 0 && |b| > 0 {
      assert a[0] in b && b[0] in a;
      var i :| 0 <= i < |b| && b[i] == a[0];
      var j :| 0 <= j < |a| && a[j] == b[0];
      assert StrLe(b[0], a[0]) by {
        if i > 0 { assert StrLe(b[0], b[i]); } else { StrLeTotal(a[0], a[0]); }
      }
      assert StrLe(a[0], b[0]) by {
        if j > 0 { assert StrLe(a[0], a[j]); } else { StrLeTotal(b[0], b[0]); }
      }
      StrLeAntisymmetric(a[0], b[0]);
      forall x
        ensures x in a[1..] <==> x in b[1..]
      {
        assert x in a <==> x == a[0] || x in a[1..] by { assert a == [a[0]] + a[1..]; }
        assert x in b <==> x == b[0] || x in b[1..] by { assert b == [b[0]] + b[1..]; }
        if x in a[1..] {
          var k :| 0 <= k < |a[1..]| && a[1..][k] == x;
          assert a[k + 1] != a[0];
        }
        if x in b[1..] {
          var k :| 0 <= k < |b[1..]| && b[1..][k] == x;
          assert b[k + 1] != b[0];
        }
      }
      StrictlySortedUnique(a[1..], b[1..]);
      assert a == [a[0]] + a[1..];
      assert b == [b[0]] + b[1..];
    }
  }

  // ---------------------------------------------------------------------------
  // The tag filter

  function HasTag(tag: string): Developer -> bool {
    (d: Developer) => tag in TagsOf(d)
  }

  /** `filteredDevelopers`: with no active tag (none, or the empty string) the list as
      it is; otherwise the developers carrying the tag, in order. */
  function FilterByTag(devs: seq<Developer>, active: Option<string>): (r: seq<Developer>)
    ensures active.None? || active.value == "" ==> r == devs
    ensures active.Some? && active.value != "" ==>
      && (forall d :: d in r <==> d in devs && active.value in TagsOf(d))
      && (forall d :: multiset(r)[d] == if active.value in TagsOf(d) then multiset(devs)[d] else 0)
      && Seqs.IsSubsequence(r, devs)
  {
    if active.None? || active.value == "" then devs
    else Seqs.Filter(devs, HasTag(active.value))
  }

  /** Filtering by the active tag a second time keeps the list. */
  lemma FilterByTagIdempotent(devs: seq<Developer>, active: Option<string>)
    ensures FilterByTag(FilterByTag(devs, active), active) == FilterByTag(devs, active)
  {
    if active.Some? && active.value != "" {
      Seqs.FilterIdempotent(devs, HasTag(active.value));
    }
  }

  // ---------------------------------------------------------------------------
  // Sorting

  datatype SortKey = ByName | ByDateAdded

  datatype SortState = SortState(key: SortKey, dir: Direction)

  /** Newest first when the screen opens. */
  const InitialSort: SortState := SortState(ByDateAdded, Desc)

  /** `handleSort`: the same key flips the direction; another key is selected
      ascending, whichever key it is. */
  function HandleSort(st: SortState, key: SortKey): (r: SortState)
    ensures r.key == key
    ensures key == st.key ==> r.dir != st.dir
    ensures key != st.key ==> r.dir == Asc
  {
    if key == st.key then st.(dir := Flip(st.dir)) else SortState(key, Asc)
  }

  /** Pressing the current key twice restores the state; pressing another key twice
      leaves it selected descending. */
  lemma HandleSortTwice(st: SortState, key: SortKey)
    ensures key == st.key ==> HandleSort(HandleSort(st, key), key) == st
    ensures key != st.key ==> HandleSort(HandleSort(st, key), key) == SortState(key, Desc)
  {
  }

  /** The sort keys. */
  function NameOf(d: Developer): string {
    d.name
  }

  function AddedAt(timeOf: string -> int): Developer -> int {
    (d: Developer) => timeOf(d.dateAdded)
  }

  /** `sortedDevelopers`: a permutation of the list, in collation order of names or in
      time order of the dates added, in the chosen direction. */
  function SortDevelopers(devs: seq<Developer>, st: SortState,
                          nameLe: (string, string) -> bool, timeOf: string -> int): (r: seq<Developer>)
    requires TotalPreorder(nameLe)
    ensures multiset(r) == multiset(devs)
    ensures st == SortState(ByName, Asc) ==>
              forall i, j :: 0 <= i < j < |r| ==> nameLe(r[i].name, r[j].name)
    ensures st == SortState(ByName, Desc) ==>
              forall i, j :: 0 <= i < j < |r| ==> nameLe(r[j].name, r[i].name)
    ensures st == SortState(ByDateAdded, Asc) ==>
              forall i, j :: 0 <= i < j < |r| ==> timeOf(r[i].dateAdded) <= timeOf(r[j].dateAdded)
    ensures st == SortState(ByDateAdded, Desc) ==>
              forall i, j :: 0 <= i < j < |r| ==> timeOf(r[i].dateAdded) >= timeOf(r[j].dateAdded)
  {
    if st.key == ByName then
      DirectedPreorder(nameLe, st.dir);
      SortOn(devs, NameOf, Directed(nameLe, st.dir))
    else
      IntLePreorder();
      DirectedPreorder(IntLe, st.dir);
      SortOn(devs, AddedAt(timeOf), Directed(IntLe, st.dir))
  }

  /** The list opens sorted by date added, newest first. */
  lemma OpensNewestFirst(devs: seq<Developer>, nameLe: (string, string) -> bool, timeOf: string -> int)
    requires TotalPreorder(nameLe)
    ensures var r := SortDevelopers(devs, InitialSort, nameLe, timeOf);
            forall i, j :: 0 <= i < j < |r| ==> timeOf(r[i].dateAdded) >= timeOf(r[j].dateAdded)
  {
  }

  /** Without ties between different developers, the descending order is the ascending
      one read backwards, for either key. */
  lemma DescIsReversedAsc(devs: seq<Developer>, key: SortKey,
                          nameLe: (string, string) -> bool, timeOf: string -> int)
    requires TotalPreorder(nameLe)
    requires key == ByName ==>
               forall x, y :: x in devs && y in devs && nameLe(x.name, y.name) && nameLe(y.name, x.name) ==> x == y
    requires key == ByDateAdded ==>
               forall x, y :: x in devs && y in devs && timeOf(x.dateAdded) == timeOf(y.dateAdded) ==> x == y
    ensures SortDevelopers(devs, SortState(key, Desc), nameLe, timeOf)
            == Reverse(SortDevelopers(devs, SortState(key, Asc), nameLe, timeOf))
  {
    if key == ByName {
      assert NoTies(devs, NameOf, nameLe);
      SortReversedIsReverse(devs, NameOf, nameLe);
    } else {
      IntLePreorder();
      assert NoTies(devs, AddedAt(timeOf), IntLe);
      SortReversedIsReverse(devs, AddedAt(timeOf), IntLe);
    }
  }

  // ---------------------------------------------------------------------------
  // Screen state

  /** The screen's own state besides the collection. */
  datatype ListView = ListView(
    sort: SortState,
    activeTag: Option<string>,
    editing: Option<Developer>,
    searchTerm: string,
    searchResults: seq<App>,
    searchError: Option<string>,
    urlInput: string,
    urlError: Option<string>)

  const InitialView: ListView := ListView(InitialSort, None, None, "", [], None, "", None)

  /** The collection together with the screen state. */
  datatype Screen = Screen(app: AppState, view: ListView)

  /** The cards shown: the filtered developers, sorted. Exactly the developers carrying
      the active tag (all of them without one) appear, each as often as it is saved. */
  function VisibleDevelopers(devs: seq<Developer>, view: ListView,
                             nameLe: (string, string) -> bool, timeOf: string -> int): (r: seq<Developer>)
    requires TotalPreorder(nameLe)
    ensures multiset(r) == multiset(FilterByTag(devs, view.activeTag))
    ensures forall d :: d in r <==> (d in devs && (view.activeTag.None? || view.activeTag.value == ""
                                                   || view.activeTag.value in TagsOf(d)))
    ensures r == SortDevelopers(FilterByTag(devs, view.activeTag), view.sort, nameLe, timeOf)
  {
    var shown := FilterByTag(devs, view.activeTag);
    var r := SortDevelopers(shown, view.sort, nameLe, timeOf);
    assert forall d :: d in r <==> d in multiset(shown);
    r
  }

  // ---------------------------------------------------------------------------
  // Saving edited tags

  /** `developers.find(d => d.id === id)`: the first developer with that id. */
  function FindById(devs: seq<Developer>, id: int): (r: Option<Developer>)
    ensures r.None? <==> !HasId(devs, id)
    ensures r.Some? ==> exists i :: 0 <= i < |devs| && devs[i] == r.value && r.value.id == id
                                    && forall j :: 0 <= j < i ==> devs[j].id != id
  {
    if |devs| == 0 then None
    else if devs[0].id == id then Some(devs[0])
    else
      var r := FindById(devs[1..], id);
      assert forall j :: 1 <= j < |devs| ==> devs[j] == devs[1..][j - 1];
      if r.Some? then
        var k :| 0 <= k < |devs[1..]| && devs[1..][k] == r.value && r.value.id == id
                 && forall j :: 0 <= j < k ==> devs[1..][j].id != id;
        assert devs[k + 1] == r.value;
        r
      else r
  }

  /** `handleSaveTags`: the first developer with the id, with the new tags, replaces
      every developer with that id; without one nothing changes. The editor closes
      either way. */
  function HandleSaveTags(sc: Screen, id: int, tags: seq<string>): (r: Screen)
    ensures r.view == sc.view.(editing := None)
    ensures r.app.selected == sc.app.selected
    ensures !HasId(sc.app.developers, id) ==> r.app == sc.app
    ensures |r.app.developers| == |sc.app.developers|
    ensures forall i :: 0 <= i < |sc.app.developers| && sc.app.developers[i].id != id ==>
              r.app.developers[i] == sc.app.developers[i]
    ensures UniqueIds(sc.app.developers) ==>
              forall i :: 0 <= i < |sc.app.developers| && sc.app.developers[i].id == id ==>
                r.app.developers[i] == sc.app.developers[i].(tags := Some(tags))
  {
    var view := sc.view.(editing := None);
    match FindById(sc.app.developers, id)
    case None => Screen(sc.app, view)
    case Some(d) =>
      var r := Screen(UpdateDeveloper(sc.app, d.(tags := Some(tags))), view);
      assert UniqueIds(sc.app.developers) ==>
        forall i :: 0 <= i < |sc.app.developers| && sc.app.developers[i].id == id ==>
          sc.app.developers[i] == d;
      r
  }

  /** With repeated ids (an imported file may hold them) every developer with the id
      becomes a copy of the first one with the new tags. */
  lemma SaveTagsWithRepeatedIds(sc: Screen, id: int, tags: seq<string>, first: nat)
    requires first < |sc.app.developers| && sc.app.developers[first].id == id
    requires forall j :: 0 <= j < first ==> sc.app.developers[j].id != id
    ensures forall i :: 0 <= i < |sc.app.developers| && sc.app.developers[i].id == id ==>
              HandleSaveTags(sc, id, tags).app.developers[i] == sc.app.developers[first].(tags := Some(tags))
  {
    var f := FindById(sc.app.developers, id);
    var k :| 0 <= k < |sc.app.developers| && sc.app.developers[k] == f.value && f.value.id == id
             && forall j :: 0 <= j < k ==> sc.app.developers[j].id != id;
    assert k == first;
  }

  // ---------------------------------------------------------------------------
  // Import

  /** `typeof item.<field> === <type>` for every required field. */
  predicate HasDeveloperShape(m: map<string, Json>) {
    && "id" in m && m["id"].JNumber?
    && "name" in m && m["name"].JString?
    && "url" in m && m["url"].JString?
    && "dateAdded" in m && m["dateAdded"].JString?
    && "iconUrl" in m && m["iconUrl"].JString?
  }

  /** How the shape check treats one array item: reading a field of `null` throws,
      any other non-object lacks the fields. */
  datatype ItemVerdict = WellShaped | Malformed | Throws

  function CheckItem(item: Json): (r: ItemVerdict)
    ensures r == WellShaped <==> item.JObject? && HasDeveloperShape(item.members)
    ensures r == Throws <==> item.JNull?
  {
    match item
    case JNull => Throws
    case JObject(m) => if HasDeveloperShape(m) then WellShaped else Malformed
    case _ => Malformed
  }

  /** `items.every(...)`: the verdict of the first item that is not well shaped. */
  function CheckItems(items: seq<Json>): (r: ItemVerdict)
    ensures r == WellShaped <==> forall i :: 0 <= i < |items| ==> CheckItem(items[i]) == WellShaped
    ensures r != WellShaped ==> exists i :: 0 <= i < |items| && CheckItem(items[i]) == r
                                            && forall j :: 0 <= j < i ==> CheckItem(items[j]) == WellShaped
  {
    if |items| == 0 then WellShaped
    else if CheckItem(items[0]) != WellShaped then CheckItem(items[0])
    else
      var r := CheckItems(items[1..]);
      assert forall j :: 1 <= j < |items| ==> items[j] == items[1..][j - 1];
      if r != WellShaped then
        var k :| 0 <= k < |items[1..]| && CheckItem(items[1..][k]) == r
                 && forall j :: 0 <= j < k ==> CheckItem(items[1..][j]) == WellShaped;
        assert CheckItem(items[k + 1]) == r;
        r
      else r
  }

  function StringItems(items: seq<Json>): (r: seq<string>)
    requires forall i :: 0 <= i < |items| ==> items[i].JString?
    ensures |r| == |items|
    ensures forall i :: 0 <= i < |items| ==> items[i] == JString(r[i])
  {
    seq(|items|, i requires 0 <= i < |items| => items[i].s)
  }

  /** The tags an imported record brings: an array of strings is kept; anything else,
      which the import check lets through, is read as no tags. */
  function ImportedTags(m: map<string, Json>): Option<seq<string>> {
    if "tags" in m && m["tags"].JArray? && forall i :: 0 <= i < |m["tags"].items| ==> m["tags"].items[i].JString?
    then Some(StringItems(m["tags"].items))
    else None
  }

  function ToDeveloper(m: map<string, Json>): Developer
    requires HasDeveloperShape(m)
  {
    Developer(m["id"].n, m["name"].s, m["url"].s, m["dateAdded"].s, m["iconUrl"].s, ImportedTags(m))
  }

  function ToDevelopers(items: seq<Json>): (r: seq<Developer>)
    requires forall i :: 0 <= i < |items| ==> items[i].JObject? && HasDeveloperShape(items[i].members)
    ensures |r| == |items|
    ensures forall i :: 0 <= i < |items| ==> r[i] == ToDeveloper(items[i].members)
  {
    seq(|items|, i requires 0 <= i < |items| => ToDeveloper(items[i].members))
  }

  datatype ImportOutcome = Imported | Declined | InvalidFormat | ReadFailure

  /** The alert shown for a rejected file: only rejections alert. */
  function ImportAlert(o: ImportOutcome): (r: Option<string>)
    ensures r.Some? <==> o == InvalidFormat || o == ReadFailure
  {
    match o
    case InvalidFormat => Some("無効なファイル形式です。")
    case ReadFailure => Some("ファイルの読み込みに失敗しました。")
    case _ => None
  }

  /** The two rejections tell the user different things. */
  lemma ImportAlertsDistinct()
    ensures ImportAlert(InvalidFormat) != ImportAlert(ReadFailure)
  {
    assert |ImportAlert(InvalidFormat).value| != |ImportAlert(ReadFailure).value|;
  }

  datatype ImportResult = ImportResult(app: AppState, outcome: ImportOutcome)

  /** The file passes the shape check: an array whose every item has a number id and
      string name, url, dateAdded and iconUrl. */
  predicate AcceptedFile(parsed: Json) {
    parsed.JArray? && forall i :: 0 <= i < |parsed.items| ==> CheckItem(parsed.items[i]) == WellShaped
  }

  /** `handleImport`, given what `JSON.parse` made of the file (`None`: it threw) and
      the user's answer to the overwrite prompt. The list is replaced exactly when the
      file passes the shape check and the user confirms; in every other case the
      collection is unchanged. A parse failure, or a `null` item met before any
      malformed one, is a read failure; any other rejection is an invalid format. */
  function HandleImport(s: AppState, parsed: Option<Json>, confirmed: bool): (r: ImportResult)
    ensures r.outcome == Imported <==> parsed.Some? && AcceptedFile(parsed.value) && confirmed
    ensures r.outcome == Declined <==> parsed.Some? && AcceptedFile(parsed.value) && !confirmed
    ensures r.outcome == ReadFailure <==>
              parsed.None? || (parsed.value.JArray? && CheckItems(parsed.value.items) == Throws)
    ensures r.outcome != Imported ==> r.app == s
    ensures r.outcome == Imported ==>
              && r.app.selected == s.selected
              && |r.app.developers| == |parsed.value.items|
              && forall i :: 0 <= i < |parsed.value.items| ==>
                   parsed.value.items[i].JObject?
                   && r.app.developers[i] == ToDeveloper(parsed.value.items[i].members)
  {
    match parsed
    case None => ImportResult(s, ReadFailure)
    case Some(JArray(items)) =>
      (match CheckItems(items)
       case Throws => ImportResult(s, ReadFailure)
       case Malformed => ImportResult(s, InvalidFormat)
       case WellShaped =>
         if confirmed then
           assert forall i :: 0 <= i < |items| ==> CheckItem(items[i]) == WellShaped;
           ImportResult(ImportDevelopers(s, ToDevelopers(items)), Imported)
         else ImportResult(s, Declined))
    case Some(_) => ImportResult(s, InvalidFormat)
  }

  /** The JSON value the export writes for one developer: the five fields, and the
      tags when the developer has a tag list. It passes the import's shape check and
      reads back as the same developer. */
  function DeveloperJson(d: Developer): (r: Json)
    ensures CheckItem(r) == WellShaped
    ensures "tags" in r.members <==> d.tags.Some?
    ensures ToDeveloper(r.members) == d
  {
    var base := map["id" := JNumber(d.id), "name" := JString(d.name), "url" := JString(d.url),
                    "dateAdded" := JString(d.dateAdded), "iconUrl" := JString(d.iconUrl)];
    match d.tags
    case None => JObject(base)
    case Some(ts) =>
      var r := JObject(base["tags" := JArray(seq(|ts|, i requires 0 <= i < |ts| => JString(ts[i])))]);
      assert StringItems(r.members["tags"].items) == ts;
      r
  }

  /** The exported file: one record per developer, in order. Every record passes the
      shape check and reads back as the developer it came from. */
  function ExportJson(devs: seq<Developer>): (r: Json)
    ensures AcceptedFile(r) && |r.items| == |devs|
    ensures forall i :: 0 <= i < |devs| ==> ToDeveloper(r.items[i].members) == devs[i]
  {
    JArray(seq(|devs|, i requires 0 <= i < |devs| => DeveloperJson(devs[i])))
  }

  /** Importing an exported collection, confirmed, restores that collection. */
  lemma ExportImportRoundTrip(s: AppState, devs: seq<Developer>)
    ensures HandleImport(s, Some(ExportJson(devs)), true) == ImportResult(s.(developers := devs), Imported)
  {
    var items := ExportJson(devs).items;
    assert ToDevelopers(items) == devs;
  }

  /** The example of a record without `iconUrl`: rejected, collection unchanged. */
  lemma ImportMissingIconRejected(s: AppState)
    ensures var item := JObject(map["id" := JNumber(1), "name" := JString("A"),
                                    "url" := JString("u"), "dateAdded" := JString("d")]);
            HandleImport(s, Some(JArray([item])), true) == ImportResult(s, InvalidFormat)
  {
    var item := JObject(map["id" := JNumber(1), "name" := JString("A"),
                            "url" := JString("u"), "dateAdded" := JString("d")]);
    assert "iconUrl" !in item.members;
    assert CheckItem(item) == Malformed;
    assert CheckItems([item]) == Malformed;
  }

  // ---------------------------------------------------------------------------
  // Adding developers

  datatype SearchRun = SearchRun(screen: Screen, issued: Option<ItunesService.Request>)

  /** The search effect, run when the debounced search term settles: an empty term
      clears the results and sends nothing. Any other term clears the error and goes
      to the search service, which sends nothing for a blank term; its apps replace
      the results, or its error's message is shown over the old results. */
  function RunSearch(sc: Screen, term: string, respond: ItunesService.Request -> ItunesService.Transport,
                     parse: string -> Option<LookupEnvelope>): (r: SearchRun)
    ensures r.screen.app == sc.app
    ensures r.issued.None? <==> IsBlank(term)
    ensures r.issued.Some? ==> r.issued.value == ItunesService.Search(term, ItunesService.SearchLimit)
    ensures term == "" ==> r.screen.view == sc.view.(searchResults := [])
    ensures term != "" && IsBlank(term) ==> r.screen.view == sc.view.(searchResults := [], searchError := None)
    ensures r.issued.Some? ==>
      match ItunesService.FetchData(r.issued.value, respond, parse)
      case Failure(e) =>
        r.screen.view == sc.view.(searchError := Some(ItunesService.Message(e)))
      case Success(data) =>
        && r.screen.view == sc.view.(searchResults := r.screen.view.searchResults, searchError := None)
        && ItunesService.AsRecords(r.screen.view.searchResults)
             == Seqs.Filter(data.results, ItunesService.IsSoftware)
  {
    if term == "" then SearchRun(Screen(sc.app, sc.view.(searchResults := [])), None)
    else
      var call := ItunesService.SearchAppsByName(term, respond, parse);
      match call.result
      case Success(apps) =>
        SearchRun(Screen(sc.app, sc.view.(searchResults := apps, searchError := None)), call.issued)
      case Failure(e) =>
        SearchRun(Screen(sc.app, sc.view.(searchError := Some(ItunesService.Message(e)))), call.issued)
  }

  /** The developer a search result stands for: its publisher. */
  function InfoFromSearch(app: App): DeveloperInfo {
    DeveloperInfo(app.artistId, app.artistName, app.artistViewUrl, app.artworkUrl100)
  }

  /** `handleAddFromSearch`: the result's publisher is added (id, name, page and
      artwork taken from the result), and the search box and results are cleared. */
  function HandleAddFromSearch(sc: Screen, app: App, now: string): (r: Screen)
    ensures r.view == sc.view.(searchTerm := "", searchResults := [])
    ensures HasId(r.app.developers, app.artistId)
    ensures HasId(sc.app.developers, app.artistId) ==> r.app == sc.app
    ensures !HasId(sc.app.developers, app.artistId) ==>
              && r.app.developers[1..] == sc.app.developers
              && r.app.developers[0].id == app.artistId
              && r.app.developers[0].name == app.artistName
              && r.app.developers[0].url == app.artistViewUrl
              && r.app.developers[0].iconUrl == app.artworkUrl100
              && r.app.developers[0].dateAdded == now
              && r.app.developers[0].tags == Some([])
    ensures r.app.selected == sc.app.selected
    ensures r.app == AddDeveloper(sc.app, InfoFromSearch(app), now)
  {
    Screen(AddDeveloper(sc.app, InfoFromSearch(app), now),
           sc.view.(searchTerm := "", searchResults := []))
  }

  datatype UrlAddResult = UrlAddResult(screen: Screen, issued: Option<ItunesService.Request>)

  /** `handleAddFromUrl`: a blank URL does nothing and sends nothing. Otherwise the URL
      is resolved; on success the developer is added and the input cleared, on failure
      the collection is unchanged and the error's message is shown. */
  function HandleAddFromUrl(sc: Screen, respond: ItunesService.Request -> ItunesService.Transport,
                            parse: string -> Option<LookupEnvelope>, now: string): (r: UrlAddResult)
    ensures IsBlank(sc.view.urlInput) ==> r == UrlAddResult(sc, None)
    ensures !IsBlank(sc.view.urlInput) ==>
      var call := ItunesService.ResolveFromUrl(sc.view.urlInput, respond, parse);
      && r.issued == call.issued
      && (call.result.Success? ==>
            && r.screen.view == sc.view.(urlInput := "", urlError := None)
            && HasId(r.screen.app.developers, call.result.value.id)
            && r.screen.app == AddDeveloper(sc.app, call.result.value, now))
      && (call.result.Failure? ==>
            && r.screen.app == sc.app
            && r.screen.view == sc.view.(urlError := Some(ItunesService.Message(call.result.error))))
  {
    if Trim(sc.view.urlInput) == "" then UrlAddResult(sc, None)
    else
      var call := ItunesService.ResolveFromUrl(sc.view.urlInput, respond, parse);
      match call.result
      case Success(info) =>
        UrlAddResult(Screen(AddDeveloper(sc.app, info, now), sc.view.(urlInput := "", urlError := None)),
                     call.issued)
      case Failure(e) =>
        UrlAddResult(Screen(sc.app, sc.view.(urlError := Some(ItunesService.Message(e)))), call.issued)
  }
}
