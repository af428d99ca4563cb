/** The app list screen of one saved developer (components/AppList.tsx): loading the
    developer's apps and ordering them by name or release date. */
module AppList {
  import opened Wrappers
  import opened Types
  import opened Sorting
  import opened ItunesService
  import DeveloperList

  datatype SortKey = ByTrackName | ByReleaseDate

  datatype SortState = SortState(key: SortKey, dir: Direction)

  /** Newest release first when the screen opens. */
  const InitialSort: SortState := SortState(ByReleaseDate, Desc)

  /** The direction a key starts in when it is picked: newest first for dates,
      A to Z for names. */
  function DefaultDirection(key: SortKey): (r: Direction)
    ensures r == Desc <==> key == ByReleaseDate
  {
    if key == ByReleaseDate then Desc else Asc
  }

  /** `handleSort`: the same key flips the direction; another key is selected in its
      own starting direction. */
  function HandleSort(st: SortState, key: SortKey): (r: SortState)
    ensures r.key == key
    ensures key == st.key ==> r.dir != st.dir
    ensures key != st.key && key == ByReleaseDate ==> r.dir == Desc
    ensures key != st.key && key == ByTrackName ==> r.dir == Asc
  {
    if key == st.key then st.(dir := Flip(st.dir)) else SortState(key, DefaultDirection(key))
  }

  /** Pressing the current key twice restores the state. */
  lemma HandleSortTwice(st: SortState, key: SortKey)
    requires key == st.key
    ensures HandleSort(HandleSort(st, key), key) == st
  {
  }

  /** Picking the other key and then coming back lands on the key's starting
      direction; from the initial state that is the initial state again. */
  lemma HandleSortAwayAndBack(st: SortState, other: SortKey)
    requires other != st.key
    ensures HandleSort(HandleSort(st, other), st.key) == SortState(st.key, DefaultDirection(st.key))
    ensures HandleSort(HandleSort(InitialSort, ByTrackName), ByReleaseDate) == InitialSort
  {
  }

  /** Unlike this screen, the developer list picks every new key ascending: coming
      back to its date key after sorting by name gives oldest first. */
  lemma SortMachinesDiffer()
    ensures HandleSort(HandleSort(InitialSort, ByTrackName), ByReleaseDate).dir == Desc
    ensures DeveloperList.HandleSort(
              DeveloperList.HandleSort(DeveloperList.InitialSort, DeveloperList.ByName),
              DeveloperList.ByDateAdded).dir == Asc
  {
  }

  /** The sort keys. */
  function TrackNameOf(a: App): string {
    a.trackName
  }

  function ReleasedAt(timeOf: string -> int): App -> int {
    (a: App) => timeOf(a.releaseDate)
  }

  /** `sortedApps`: a permutation of the apps, in collation order of their names or in
      time order of their release dates, in the chosen direction. */
  function SortApps(apps: seq<App>, st: SortState,
                    nameLe: (string, string) -> bool, timeOf: string -> int): (r: seq<App>)
    requires TotalPreorder(nameLe)
    ensures multiset(r) == multiset(apps)
    ensures st == SortState(ByTrackName, Asc) ==>
              forall i, j :: 0 <= i < j < |r| ==> nameLe(r[i].trackName, r[j].trackName)
    ensures st == SortState(ByTrackName, Desc) ==>
              forall i, j :: 0 <= i < j < |r| ==> nameLe(r[j].trackName, r[i].trackName)
    ensures st == SortState(ByReleaseDate, Asc) ==>
              forall i, j :: 0 <= i < j < |r| ==> timeOf(r[i].releaseDate) <= timeOf(r[j].releaseDate)
    ensures st == SortState(ByReleaseDate, Desc) ==>
              forall i, j :: 0 <= i < j < |r| ==> timeOf(r[i].releaseDate) >= timeOf(r[j].releaseDate)
  {
    if st.key == ByTrackName then
      DirectedPreorder(nameLe, st.dir);
      SortOn(apps, TrackNameOf, Directed(nameLe, st.dir))
    else
      IntLePreorder();
      DirectedPreorder(IntLe, st.dir);
      SortOn(apps, ReleasedAt(timeOf), Directed(IntLe, st.dir))
  }

  /** The screen opens as if release date had just been picked, so the newest release
      comes first. */
  lemma OpensNewestFirst(apps: seq<App>, nameLe: (string, string) -> bool, timeOf: string -> int)
    requires TotalPreorder(nameLe)
    ensures InitialSort == SortState(ByReleaseDate, DefaultDirection(ByReleaseDate))
    ensures var r := SortApps(apps, InitialSort, nameLe, timeOf);
            forall i, j :: 0 <= i < j < |r| ==> timeOf(r[i].releaseDate) >= timeOf(r[j].releaseDate)
  {
  }

  /** Without ties between different apps, the descending order is the ascending one
      read backwards, for either key. */
  lemma DescIsReversedAsc(apps: seq<App>, key: SortKey,
                          nameLe: (string, string) -> bool, timeOf: string -> int)
    requires TotalPreorder(nameLe)
    requires key == ByTrackName ==>
               forall x, y :: x in apps && y in apps
                              && nameLe(x.trackName, y.trackName) && nameLe(y.trackName, x.trackName)
                              ==> x == y
    requires key == ByReleaseDate ==>
               forall x, y :: x in apps && y in apps && timeOf(x.releaseDate) == timeOf(y.releaseDate) ==> x == y
    ensures SortApps(apps, SortState(key, Desc), nameLe, timeOf)
            == Reverse(SortApps(apps, SortState(key, Asc), nameLe, timeOf))
  {
    if key == ByTrackName {
      assert NoTies(apps, TrackNameOf, nameLe);
      SortReversedIsReverse(apps, TrackNameOf, nameLe);
    } else {
      IntLePreorder();
      assert NoTies(apps, ReleasedAt(timeOf), IntLe);
      SortReversedIsReverse(apps, ReleasedAt(timeOf), IntLe);
    }
  }

  /** What the screen shows once loading has finished. */
  datatype Loaded = Apps(apps: seq<App>) | Error(message: string)

  /** `fetchApps`: the developer's apps are requested by its id; a failure shows the
      error's message, a success the apps with their large artwork. */
  function FetchApps(developer: Developer, respond: Request -> Transport,
                     parse: string -> Option<LookupEnvelope>): (r: Loaded)
    ensures match GetAppsByDeveloper(developer.id, respond, parse).result
            case Failure(e) => r == Error(Message(e))
            case Success(apps) => r == Apps(apps)
    ensures r.Apps? ==> forall a :: a in r.apps ==> a.artistId == developer.id
  {
    match GetAppsByDeveloper(developer.id, respond, parse).result
    case Failure(e) => Error(Message(e))
    case Success(apps) => Apps(apps)
  }
}
