/**
 * The saved-colour list: `saveCurrentColor` pushes the current colour when the
 * list does not yet include it, and `deleteSavedColor` splices one entry out.
 * Persistence and redisplay are not part of this model.
 */
module SavedColorStore {

  /** No colour string occurs twice. */
  predicate NoDuplicates(s: seq<string>) {
    forall i, j :: 0 <= i < j < |s| ==> s[i] != s[j]
  }

  /** The list after saving `color`: `includes` is exact string equality. */
  function AfterSave(list: seq<string>, color: string): (r: seq<string>)
    ensures |list| <= |r| <= |list| + 1 && r[..|list|] == list
    ensures forall x :: x in r <==> x in list || x == color
  {
    if color in list then list else list + [color]
  }

  /** What saving does to the list: exactly one new entry at the end, or none. */
  lemma AfterSaveShape(list: seq<string>, color: string)
    ensures color in AfterSave(list, color)
    ensures color !in list ==> |AfterSave(list, color)| == |list| + 1 && AfterSave(list, color)[..|list|] == list
    ensures color in list ==> AfterSave(list, color) == list
    ensures NoDuplicates(list) ==> NoDuplicates(AfterSave(list, color))
  {
  }

  /** Saving twice is saving once. */
  lemma AfterSaveIdempotent(list: seq<string>, color: string)
    ensures AfterSave(AfterSave(list, color), color) == AfterSave(list, color)
  {
  }

  /**
   * The index `Array.prototype.splice(index, 1)` starts at: a negative index
   * counts from the end (clamped at 0), a large one is clamped to the length.
   */
  function SpliceStart(len: nat, index: int): (k: nat)
    ensures k <= len
    ensures 0 <= index < len ==> k == index
    ensures index < 0 && 0 <= len + index ==> k == len + index
    ensures len + index < 0 ==> k == 0
    ensures len <= index ==> k == len
  {
    if index < 0 then (if len + index < 0 then 0 else len + index)
    else if index < len then index else len
  }

  /** `list.splice(index, 1)`: the list with the entry at the start index removed, if there is one. */
  function SpliceOne(list: seq<string>, index: int): (r: seq<string>)
    ensures |r| == if SpliceStart(|list|, index) < |list| then |list| - 1 else |list|
    ensures multiset(r) <= multiset(list)
  {
    var k := SpliceStart(|list|, index);
    if k < |list| then
      assert list == list[..k] + [list[k]] + list[k + 1..];
      list[..k] + list[k + 1..]
    else list
  }

  /** Deleting at a valid index removes exactly that entry and keeps the others in order. */
  lemma SpliceOneAtValidIndex(list: seq<string>, index: int)
    requires 0 <= index < |list|
    ensures |SpliceOne(list, index)| == |list| - 1
    ensures forall i :: 0 <= i < index ==> SpliceOne(list, index)[i] == list[i]
    ensures forall i :: index <= i < |list| - 1 ==> SpliceOne(list, index)[i] == list[i + 1]
    ensures multiset(SpliceOne(list, index)) + multiset{list[index]} == multiset(list)
  {
    assert list == list[..index] + [list[index]] + list[index + 1..];
  }

  /** An index past the end, as an out-of-range delete would pass, leaves the list alone. */
  lemma SpliceOnePastEnd(list: seq<string>, index: int)
    requires |list| <= index
    ensures SpliceOne(list, index) == list
  {
  }

  /** Removing an entry cannot create a duplicate. */
  lemma SpliceOneKeepsNoDuplicates(list: seq<string>, index: int)
    requires NoDuplicates(list)
    ensures NoDuplicates(SpliceOne(list, index))
  {
    var k := SpliceStart(|list|, index);
    if k < |list| {
      var r := SpliceOne(list, index);
      forall i, j | 0 <= i < j < |r| ensures r[i] != r[j] {
        var i' := if i < k then i else i + 1;
        var j' := if j < k then j else j + 1;
        assert r[i] == list[i'] && r[j] == list[j'];
      }
    }
  }

  /** The in-memory `savedColors` array. */
  class SavedColors {
    var colors: seq<string>

    /** `JSON.parse(localStorage.getItem("savedColors")) || []`, given what was stored. */
    constructor (stored: seq<string>)
      ensures colors == stored
    {
      colors := stored;
    }

    /** `saveCurrentColor`: `added` is true when the colour was pushed. */
    method Save(color: string) returns (added: bool)
      modifies this
      ensures added <==> color !in old(colors)
      ensures colors == AfterSave(old(colors), color)
      ensures NoDuplicates(old(colors)) ==> NoDuplicates(colors)
      ensures |old(colors)| <= |colors| <= |old(colors)| + 1
    {
      added := color !in colors;
      if added {
        colors := colors + [color];
      }
      AfterSaveShape(old(colors), color);
    }

    /** `deleteSavedColor`: `savedColors.splice(index, 1)`. */
    method Delete(index: int)
      modifies this
      ensures colors == SpliceOne(old(colors), index)
      ensures NoDuplicates(old(colors)) ==> NoDuplicates(colors)
      ensures 0 <= index < |old(colors)| ==> colors == old(colors)[..index] + old(colors)[index + 1..]
    {
      if NoDuplicates(colors) {
        SpliceOneKeepsNoDuplicates(colors, index);
      }
      colors := SpliceOne(colors, index);
    }
  }
}
