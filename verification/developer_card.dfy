/** One developer's card in the list (components/common/DeveloperCard.tsx): its icon
    or initial, its tag preview, and its delete button. */
module DeveloperCard {
  import opened Wrappers
  import opened Strings
  import opened Types
  import opened Collection
  import Seqs

  /** At most this many tags appear on a card. */
  const PreviewSize: nat := 3

  /** The tag row of a card: absent, or the first tags followed by an optional
      `+N` label counting the rest. */
  datatype TagRow = NoTagRow | TagRow(shown: seq<string>, more: Option<string>)

  /** The tag row: no row without tags; otherwise the first three tags, and a `+N`
      label exactly when there are more, N being how many are not shown. */
  function TagPreview(d: Developer): (r: TagRow)
    ensures r.NoTagRow? <==> |TagsOf(d)| == 0
    ensures r.TagRow? ==> |r.shown| == if |TagsOf(d)| < PreviewSize then |TagsOf(d)| else PreviewSize
    ensures r.TagRow? ==> TagsOf(d) == r.shown + TagsOf(d)[|r.shown|..]
    ensures r.TagRow? ==> (r.more.Some? <==> |TagsOf(d)| > PreviewSize)
    ensures r.TagRow? && r.more.Some? ==>
              |r.more.value| >= 2 && r.more.value[0] == '+' && AllDigits(r.more.value[1..])
              && DigitsValue(r.more.value[1..]) == |TagsOf(d)| - |r.shown|
    ensures r.TagRow? && r.more.Some? ==> r.more.value == "+" + NatToDecimal(|TagsOf(d)| - PreviewSize)
  {
    var tags := TagsOf(d);
    if |tags| == 0 then NoTagRow
    else if |tags| <= PreviewSize then TagRow(tags, None)
    else
      var badge := "+" + NatToDecimal(|tags| - PreviewSize);
      assert badge[1..] == NatToDecimal(|tags| - PreviewSize);
      TagRow(tags[..PreviewSize], Some(badge))
  }

  /** The number a tag row stands for: the tags shown plus the count on its label. */
  function RowCount(row: TagRow): nat {
    match row
    case NoTagRow => 0
    case TagRow(shown, more) =>
      if more.Some? && |more.value| >= 1 && AllDigits(more.value[1..])
      then |shown| + DigitsValue(more.value[1..])
      else |shown|
  }

  /** The row accounts for every tag exactly: what it shows and what its label counts
      add up to the developer's number of tags. */
  lemma PreviewCountsAllTags(d: Developer)
    ensures RowCount(TagPreview(d)) == |TagsOf(d)|
  {
  }

  /** The card's picture: the icon when there is one, otherwise the first character of
      the name (nothing for an empty name). */
  datatype Avatar = Icon(url: string) | Initial(text: string)

  function CardAvatar(d: Developer): (r: Avatar)
    ensures r.Icon? <==> d.iconUrl != ""
    ensures r.Icon? ==> r.url == d.iconUrl
    ensures r.Initial? ==> |r.text| <= 1 && (|r.text| == 1 <==> |d.name| > 0)
    ensures r.Initial? && |d.name| > 0 ==> r.text + d.name[1..] == d.name
  {
    if d.iconUrl != "" then Icon(d.iconUrl) else Initial(d.name[..if |d.name| == 0 then 0 else 1])
  }

  /** `handleDelete`: the developer's id is passed on exactly when the user confirms. */
  function HandleDelete(d: Developer, confirmed: bool): (r: Option<int>)
    ensures r.Some? <==> confirmed
    ensures r.Some? ==> r.value == d.id
  {
    if confirmed then Some(d.id) else None
  }

  /** Deleting from a card: a declined confirmation leaves the collection as it was;
      a confirmed one removes every developer with the card's id, keeps the others in
      order and as often as before, and clears the selection exactly when it had that id. */
  function DeleteFromCard(s: AppState, d: Developer, confirmed: bool): (r: AppState)
    ensures !confirmed ==> r == s
    ensures confirmed ==> !HasId(r.developers, d.id)
    ensures confirmed ==> forall x :: x in r.developers <==> x in s.developers && x.id != d.id
    ensures confirmed ==> forall x :: multiset(r.developers)[x] == if x.id != d.id then multiset(s.developers)[x] else 0
    ensures confirmed ==> Seqs.IsSubsequence(r.developers, s.developers)
    ensures confirmed ==> (r.selected.None? <==> s.selected.None? || s.selected.value.id == d.id)
    ensures confirmed && r.selected.Some? ==> r.selected == s.selected
    ensures confirmed ==> r == DeleteDeveloper(s, d.id)
    ensures confirmed && d in s.developers ==> |r.developers| < |s.developers|
  {
    match HandleDelete(d, confirmed)
    case None => s
    case Some(id) =>
      var r := DeleteDeveloper(s, id);
      if d in s.developers then
        SmallerMultiset(r.developers, s.developers, d);
        r
      else r
  }

  /** A sequence whose every element occurs at most as often as in another, and one
      element strictly less often, is strictly shorter. */
  lemma SmallerMultiset<T>(a: seq<T>, b: seq<T>, x: T)
    requires multiset(a) <= multiset(b)
    requires multiset(a)[x] < multiset(b)[x]
    ensures |a| < |b|
  {
    var diff := multiset(b) - multiset(a);
    assert multiset(b) == multiset(a) + diff;
    assert x in diff;
  }
}
