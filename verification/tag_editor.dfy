/** The tag editor dialog (components/DeveloperTagEditModal.tsx): a working copy of a
    developer's tags, a text input, and the add, remove and save actions. */
module TagEditor {
  import opened Wrappers
  import opened Strings
  import opened Types
  import opened Collection
  import Seqs
  import DeveloperList

  datatype Editor = Editor(developer: Developer, tags: seq<string>, input: string)

  /** No tag occurs twice. */
  predicate DistinctTags(tags: seq<string>) {
    forall i, j :: 0 <= i < j < |tags| ==> tags[i] != tags[j]
  }

  /** Every tag is non-empty and trimmed, and no tag occurs twice. */
  predicate CleanTags(tags: seq<string>) {
    && (forall i :: 0 <= i < |tags| ==> tags[i] != "" && Trim(tags[i]) == tags[i])
    && DistinctTags(tags)
  }

  /** Opening the editor loads the developer's tags, or none when it has no tag list,
      with an empty input. */
  function Open(d: Developer): (e: Editor)
    ensures e.developer == d && e.input == ""
    ensures d.tags.None? ==> e.tags == []
    ensures d.tags.Some? ==> e.tags == d.tags.value
  {
    Editor(d, TagsOf(d), "")
  }

  /** Typing into the input. */
  function SetInput(e: Editor, text: string): (r: Editor)
    ensures r.developer == e.developer && r.tags == e.tags
    ensures r.input == text
  {
    e.(input := text)
  }

  /** `handleAddTag`: the trimmed input is appended when it is non-empty and not
      already a tag; the input is cleared in every case. */
  function AddTag(e: Editor): (r: Editor)
    ensures r.developer == e.developer && r.input == ""
    ensures Trim(e.input) != "" && Trim(e.input) !in e.tags ==> r.tags == e.tags + [Trim(e.input)]
    ensures Trim(e.input) == "" || Trim(e.input) in e.tags ==> r.tags == e.tags
  {
    var t := Trim(e.input);
    if t != "" && t !in e.tags then Editor(e.developer, e.tags + [t], "")
    else e.(input := "")
  }

  /** Adding never creates a duplicate, and never brings in a blank or untrimmed tag:
      any such tag after the add was already in the working copy (an imported list may
      hold one). */
  lemma AddTagKeepsDistinct(e: Editor)
    requires DistinctTags(e.tags)
    ensures DistinctTags(AddTag(e).tags)
    ensures forall t :: t in AddTag(e).tags && (t == "" || Trim(t) != t) ==> t in e.tags
  {
    var t := Trim(e.input);
    if t != "" && t !in e.tags {
      var r := e.tags + [t];
      assert AddTag(e).tags == r;
      TrimIdempotent(e.input);
      forall i, j | 0 <= i < j < |r|
        ensures r[i] != r[j]
      {
        if j < |e.tags| {
          assert r[i] == e.tags[i] && r[j] == e.tags[j];
        } else {
          assert r[i] == e.tags[i] && e.tags[i] in e.tags;
        }
      }
    }
  }

  /** Adding keeps the tags clean. */
  lemma AddTagKeepsClean(e: Editor)
    requires CleanTags(e.tags)
    ensures CleanTags(AddTag(e).tags)
  {
    AddTagKeepsDistinct(e);
  }

  /** Text typed but not added is not saved: saving sends the working tags only. */
  lemma UnaddedInputIsNotSaved(sc: DeveloperList.Screen, e: Editor, text: string)
    ensures Save(sc, SetInput(e, text)) == Save(sc, e)
  {
  }

  /** Submitting the same text again adds nothing more. */
  lemma AddTagRepeated(e: Editor)
    ensures AddTag(SetInput(AddTag(e), e.input)) == AddTag(e)
  {
  }

  /** `handleRemoveTag`: every occurrence of the tag goes, the rest stay in order. */
  function RemoveTag(e: Editor, tag: string): (r: Editor)
    ensures r.developer == e.developer && r.input == e.input
    ensures forall x :: x in r.tags <==> x in e.tags && x != tag
    ensures forall x :: multiset(r.tags)[x] == if x != tag then multiset(e.tags)[x] else 0
    ensures Seqs.IsSubsequence(r.tags, e.tags)
  {
    e.(tags := Seqs.Filter(e.tags, (x: string) => x != tag))
  }

  /** Removing a tag that is not there changes nothing. */
  lemma RemoveAbsentIsNoop(e: Editor, tag: string)
    requires tag !in e.tags
    ensures RemoveTag(e, tag) == e
  {
    Seqs.FilterAll(e.tags, (x: string) => x != tag);
  }

  /** Removing keeps the tags clean. */
  lemma {:induction false} RemoveKeepsClean(e: Editor, tag: string)
    requires CleanTags(e.tags)
    ensures CleanTags(RemoveTag(e, tag).tags)
  {
    var r := RemoveTag(e, tag).tags;
    forall i | 0 <= i < |r|
      ensures r[i] != "" && Trim(r[i]) == r[i]
    {
      assert r[i] in r;
    }
    forall x ensures multiset(r)[x] <= 1 {
      DistinctCountAtMostOne(e.tags, x);
    }
    CountsAtMostOneDistinct(r);
  }

  /** In a sequence without repeats every element is counted at most once. */
  lemma {:induction false} DistinctCountAtMostOne(s: seq<string>, x: string)
    requires forall i, j :: 0 <= i < j < |s| ==> s[i] != s[j]
    ensures multiset(s)[x] <= 1
  {
    if |s| > 0 {
      DistinctCountAtMostOne(s[1..], x);
      assert s == [s[0]] + s[1..];
      if s[0] == x {
        forall k | 0 <= k < |s[1..]| ensures s[1..][k] != x {
          assert s[1..][k] == s[k + 1];
        }
        assert x !in s[1..];
      }
    }
  }

  /** A sequence whose elements are each counted at most once has no repeats. */
  lemma CountsAtMostOneDistinct(s: seq<string>)
    requires forall x :: multiset(s)[x] <= 1
    ensures forall i, j :: 0 <= i < j < |s| ==> s[i] != s[j]
  {
    forall i, j | 0 <= i < j < |s|
      ensures s[i] != s[j]
    {
      assert s == s[..j] + s[j..];
      assert s[i] in s[..j];
      assert s[j] == s[j..][0];
      assert multiset(s)[s[j]] == multiset(s[..j])[s[j]] + multiset(s[j..])[s[j]];
    }
  }

  /** `handleSave`: the developer's id and the working tags, unchanged, go to the
      screen's tag saving, which closes the editor and changes only that developer's
      tags when ids are unique. */
  function Save(sc: DeveloperList.Screen, e: Editor): (r: DeveloperList.Screen)
    ensures r.view == sc.view.(editing := None)
    ensures r.app.selected == sc.app.selected
    ensures !HasId(sc.app.developers, e.developer.id) ==> r.app == sc.app
    ensures |r.app.developers| == |sc.app.developers|
    ensures forall i :: 0 <= i < |sc.app.developers| && sc.app.developers[i].id != e.developer.id ==>
              r.app.developers[i] == sc.app.developers[i]
    ensures UniqueIds(sc.app.developers) ==>
              forall i :: 0 <= i < |sc.app.developers| && sc.app.developers[i].id == e.developer.id ==>
                r.app.developers[i] == sc.app.developers[i].(tags := Some(e.tags))
  {
    DeveloperList.HandleSaveTags(sc, e.developer.id, e.tags)
  }
}
