/** The values behind the task list: the items shown in the list container,
    the records the store keeps, and the pure list operations the event
    handlers apply (remove one item, move the drag source next to a target,
    take the snapshot that is saved, rebuild items from saved records). */
module TaskModel {

  datatype Option<T> = None | Some(value: T)

  /** What an item shows in its text slot. An item holds either a static text
      element (`Display`) or a text area whose live value is `buffer`
      (`Editing`), never both. */
  datatype View = Display(shown: string) | Editing(buffer: string)

  /** One task container. `id` stands for the identity of its element (the
      drag source is compared by identity); `done` is the checkbox state;
      `completed` and `dragging` are the `taskCompleted` and `taskDragging`
      classes on the container. */
  datatype Item = Item(id: nat, view: View, done: bool, completed: bool, dragging: bool)

  /** One stored record `{text, done}`. */
  datatype Record = Record(text: string, done: bool)

  /** The value of the storage slot as the loader sees it: no entry, the
      empty string, text that does not parse, a parsed value that is not an
      array, or an array of well-formed records. */
  datatype Stored = Absent | Blank | Unparseable | NotAnArray | Tasks(records: seq<Record>)

  /** The text an item currently holds: the text area's value while editing,
      the static text otherwise. */
  function TextOf(it: Item): string {
    match it.view
    case Editing(b) => b
    case Display(t) => t
  }

  function RecordOf(it: Item): Record {
    Record(TextOf(it), it.done)
  }

  /** What saving writes: one record per item, in list order, carrying the
      item's current text and checkbox state. The pointwise ensures only
      unfolds the comprehension for the solver; what saving promises after
      each handler is stated by SnapshotRemove, SnapshotUpdate, SnapshotMove
      and SnapshotRebuild below. */
  function Snapshot(s: seq<Item>): (r: seq<Record>)
    ensures |r| == |s|
    ensures forall k {:trigger r[k]} :: 0 <= k < |s| ==> r[k] == Record(TextOf(s[k]), s[k].done)
  {
    seq(|s|, k requires 0 <= k < |s| => RecordOf(s[k]))
  }

  /** The item the loader creates for a record: a fresh container in display
      mode, checked and marked completed exactly when the record is done. */
  function FromRecord(rec: Record, id: nat): Item {
    Item(id, Display(rec.text), rec.done, rec.done, false)
  }

  /** The items the loader appends for `rs`, the k-th with identity
      `firstId + k`. */
  function Rebuild(rs: seq<Record>, firstId: nat): (r: seq<Item>)
    ensures |r| == |rs|
    ensures forall k {:trigger r[k]} :: 0 <= k < |rs| ==>
      r[k] == Item(firstId + k, Display(rs[k].text), rs[k].done, rs[k].done, false)
  {
    if rs == [] then []
    else Rebuild(rs[..|rs| - 1], firstId) + [FromRecord(rs[|rs| - 1], firstId + |rs| - 1)]
  }

  /** `s` without its element at `j`; the others keep their order. */
  function Remove<T>(s: seq<T>, j: nat): (r: seq<T>)
    requires j < |s|
    ensures |r| == |s| - 1
    ensures forall k {:trigger r[k]} :: 0 <= k < |r| ==> r[k] == s[if k < j then k else k + 1]
  {
    s[..j] + s[j + 1..]
  }

  /** `s` with `x` placed at index `pos`. */
  function Insert<T>(s: seq<T>, pos: nat, x: T): (r: seq<T>)
    requires pos <= |s|
    ensures |r| == |s| + 1 && r[pos] == x
    ensures forall k {:trigger r[k]} :: 0 <= k < |r| && k != pos ==> r[k] == s[if k < pos then k else k - 1]
  {
    s[..pos] + [x] + s[pos..]
  }

  /** Where the drag source ends up when it is moved next to the target at
      `dst`: just before it when `above`, just after it otherwise. */
  function MovedIndex(src: nat, dst: nat, above: bool): nat
    requires src != dst
  {
    var t := if dst < src then dst else dst - 1;
    if above then t else t + 1
  }

  /** Where the target ends up after that move. */
  function TargetIndex(src: nat, dst: nat, above: bool): nat
    requires src != dst
  {
    var t := if dst < src then dst else dst - 1;
    if above then t + 1 else t
  }

  /** `insertBefore(source, target)` when `above`, and
      `insertBefore(source, target.nextSibling)` otherwise: the source leaves
      its place and is put back immediately before or after the target (at
      the end when the target is the last item). Taking the source out of
      the result again gives the list without the source: every other item
      keeps its relative order. */
  function Move<T>(s: seq<T>, src: nat, dst: nat, above: bool): (r: seq<T>)
    requires src < |s| && dst < |s| && src != dst
    ensures |r| == |s|
    ensures MovedIndex(src, dst, above) < |r| && r[MovedIndex(src, dst, above)] == s[src]
    ensures Remove(r, MovedIndex(src, dst, above)) == Remove(s, src)
  {
    var rest := Remove(s, src);
    var p := MovedIndex(src, dst, above);
    var r := Insert(rest, p, s[src]);
    assert Remove(r, p) == rest;
    r
  }

  /** After the move the source sits immediately before the target when
      `above` and immediately after it otherwise. */
  lemma MoveNextToTarget<T>(s: seq<T>, src: nat, dst: nat, above: bool)
    requires src < |s| && dst < |s| && src != dst
    ensures TargetIndex(src, dst, above) < |s|
    ensures Move(s, src, dst, above)[TargetIndex(src, dst, above)] == s[dst]
    ensures above ==> TargetIndex(src, dst, above) == MovedIndex(src, dst, above) + 1
    ensures !above ==> TargetIndex(src, dst, above) + 1 == MovedIndex(src, dst, above)
  {
    MoveAt(s, src, dst, above, TargetIndex(src, dst, above));
    assert MoveOrigin(src, dst, above, TargetIndex(src, dst, above)) == dst;
  }

  /** The index in `s` of the element that the move puts at index `k`. */
  function MoveOrigin(src: nat, dst: nat, above: bool, k: nat): nat
    requires src != dst
  {
    var p := MovedIndex(src, dst, above);
    if k == p then src
    else
      var rk := if k < p then k else k - 1;
      if rk < src then rk else rk + 1
  }

  /** Every index of the moved list holds one element of the original, and
      distinct indices hold distinct originals. */
  lemma MoveAt<T>(s: seq<T>, src: nat, dst: nat, above: bool, k: nat)
    requires src < |s| && dst < |s| && src != dst && k < |s|
    ensures MoveOrigin(src, dst, above, k) < |s|
    ensures Move(s, src, dst, above)[k] == s[MoveOrigin(src, dst, above, k)]
  {
    var r := Move(s, src, dst, above);
    var p := MovedIndex(src, dst, above);
    var rest := Remove(s, src);
    if k < p {
      assert r[k] == Remove(r, p)[k] == rest[k];
    } else if k > p {
      assert r[k] == Remove(r, p)[k - 1] == rest[k - 1];
    }
  }

  /** Distinct indices of the moved list hold distinct originals. */
  lemma MoveOriginInjective(src: nat, dst: nat, above: bool, a: nat, b: nat)
    requires src != dst && a != b
    ensures MoveOrigin(src, dst, above, a) != MoveOrigin(src, dst, above, b)
  {
  }

  /** Removing an element takes exactly that element out of the multiset. */
  lemma RemovePermutes<T>(s: seq<T>, j: nat)
    requires j < |s|
    ensures multiset(Remove(s, j)) + multiset{s[j]} == multiset(s)
  {
    assert s == s[..j] + [s[j]] + s[j + 1..];
  }

  /** The move is a permutation: the same items, each as often as before. */
  lemma MovePermutes<T>(s: seq<T>, src: nat, dst: nat, above: bool)
    requires src < |s| && dst < |s| && src != dst
    ensures multiset(Move(s, src, dst, above)) == multiset(s)
  {
    var r := Move(s, src, dst, above);
    var p := MovedIndex(src, dst, above);
    RemovePermutes(s, src);
    RemovePermutes(r, p);
  }

  /** Every element identity occurs once. */
  predicate DistinctIds(s: seq<Item>) {
    forall a, b :: 0 <= a < |s| && 0 <= b < |s| && a != b ==> s[a].id != s[b].id
  }

  /** Position of the item with identity `id`, if any. */
  function IndexOf(s: seq<Item>, id: nat): (r: Option<nat>)
    ensures r.Some? ==> r.value < |s| && s[r.value].id == id
    ensures r.None? ==> forall k :: 0 <= k < |s| ==> s[k].id != id
  {
    if s == [] then None
    else if s[0].id == id then Some(0)
    else match IndexOf(s[1..], id)
      case None => None
      case Some(k) => Some(k + 1)
  }

  // ---------------------------------------------------------------------
  // Properties of the snapshot and of the list operations

  /** Saving after removing an item writes the old snapshot without that
      item's record. */
  lemma SnapshotRemove(s: seq<Item>, j: nat)
    requires j < |s|
    ensures Snapshot(Remove(s, j)) == Remove(Snapshot(s), j)
  {
    var l, r := Snapshot(Remove(s, j)), Remove(Snapshot(s), j);
    assert |l| == |r|;
    forall k | 0 <= k < |l| ensures l[k] == r[k] {
      var m := if k < j then k else k + 1;
      assert Remove(s, j)[k] == s[m];
      assert r[k] == Snapshot(s)[m];
    }
  }

  /** Saving after changing one item writes the old snapshot with only that
      item's record replaced. */
  lemma SnapshotUpdate(s: seq<Item>, j: nat, x: Item)
    requires j < |s|
    ensures Snapshot(s[j := x]) == Snapshot(s)[j := RecordOf(x)]
  {
  }

  /** Saving after a reorder writes the same reorder of the old snapshot. */
  lemma SnapshotMove(s: seq<Item>, src: nat, dst: nat, above: bool)
    requires src < |s| && dst < |s| && src != dst
    ensures Snapshot(Move(s, src, dst, above)) == Move(Snapshot(s), src, dst, above)
  {
    var l, q := Snapshot(Move(s, src, dst, above)), Move(Snapshot(s), src, dst, above);
    forall k | 0 <= k < |l| ensures l[k] == q[k] {
      SnapshotMoveAt(s, src, dst, above, k);
    }
  }

  lemma SnapshotMoveAt(s: seq<Item>, src: nat, dst: nat, above: bool, k: nat)
    requires src < |s| && dst < |s| && src != dst && k < |s|
    ensures Snapshot(Move(s, src, dst, above))[k] == Move(Snapshot(s), src, dst, above)[k]
  {
    MoveAt(s, src, dst, above, k);
    MoveAt(Snapshot(s), src, dst, above, k);
  }

  /** Opening the editor changes nothing that is saved: the text area
      starts with the shown text. */
  lemma OpenEditorKeepsSnapshot(s: seq<Item>, j: nat)
    requires j < |s| && s[j].view.Display?
    ensures Snapshot(s[j := s[j].(view := Editing(s[j].view.shown))]) == Snapshot(s)
  {
    SnapshotUpdate(s, j, s[j].(view := Editing(s[j].view.shown)));
  }

  /** Loading what was saved gives items whose snapshot is the saved one. */
  lemma SnapshotRebuild(rs: seq<Record>, firstId: nat)
    ensures Snapshot(Rebuild(rs, firstId)) == rs
  {
  }

  /** The round trip save-then-load: every reloaded item is in display mode,
      shows the text the item held when saved (its buffer if it was being
      edited), carries its checkbox state, and saving again writes the same
      snapshot. */
  lemma SaveLoadRoundTrip(s: seq<Item>, firstId: nat)
    ensures |Rebuild(Snapshot(s), firstId)| == |s|
    ensures forall k :: 0 <= k < |s| ==>
      Rebuild(Snapshot(s), firstId)[k].view == Display(TextOf(s[k]))
      && Rebuild(Snapshot(s), firstId)[k].done == s[k].done
    ensures Snapshot(Rebuild(Snapshot(s), firstId)) == Snapshot(s)
  {
    SnapshotRebuild(Snapshot(s), firstId);
  }

  /** Identities stay distinct when an item is removed. */
  lemma RemoveDistinct(s: seq<Item>, j: nat)
    requires j < |s| && DistinctIds(s)
    ensures DistinctIds(Remove(s, j))
  {
    var r := Remove(s, j);
    forall a, b | 0 <= a < |r| && 0 <= b < |r| && a != b ensures r[a].id != r[b].id {
      assert r[a] == s[if a < j then a else a + 1];
      assert r[b] == s[if b < j then b else b + 1];
    }
  }

  /** Identities stay distinct under a reorder. */
  lemma MoveDistinct(s: seq<Item>, src: nat, dst: nat, above: bool)
    requires src < |s| && dst < |s| && src != dst && DistinctIds(s)
    ensures DistinctIds(Move(s, src, dst, above))
  {
    var r := Move(s, src, dst, above);
    forall a, b | 0 <= a < |r| && 0 <= b < |r| && a != b ensures r[a].id != r[b].id {
      MoveAt(s, src, dst, above, a);
      MoveAt(s, src, dst, above, b);
      MoveOriginInjective(src, dst, above, a, b);
    }
  }

  /** The list invariant of the widget: distinct elements, every identity
      below `bound` (handed out already), and the completed class mirroring
      the checkbox. */
  predicate WellFormed(s: seq<Item>, bound: nat) {
    DistinctIds(s)
    && (forall k :: 0 <= k < |s| ==> s[k].id < bound)
    && (forall k :: 0 <= k < |s| ==> s[k].completed == s[k].done)
  }

  /** A reorder keeps the list invariant. */
  lemma MoveWellFormed(s: seq<Item>, src: nat, dst: nat, above: bool, bound: nat)
    requires src < |s| && dst < |s| && src != dst && WellFormed(s, bound)
    ensures WellFormed(Move(s, src, dst, above), bound)
  {
    MoveDistinct(s, src, dst, above);
    forall k | 0 <= k < |s|
      ensures Move(s, src, dst, above)[k].id < bound
      ensures Move(s, src, dst, above)[k].completed == Move(s, src, dst, above)[k].done
    {
      MoveAt(s, src, dst, above, k);
    }
  }

  /** A drag-over repeated at the same pointer position changes nothing more:
      moving the source again next to the target, on the same side, gives
      the same list. */
  lemma MoveAgain<T>(s: seq<T>, src: nat, dst: nat, above: bool)
    requires src < |s| && dst < |s| && src != dst
    ensures Move(Move(s, src, dst, above), MovedIndex(src, dst, above), TargetIndex(src, dst, above), above)
         == Move(s, src, dst, above)
  {
    var r := Move(s, src, dst, above);
    var p := MovedIndex(src, dst, above);
    var q := TargetIndex(src, dst, above);
    assert MovedIndex(p, q, above) == p;
    var r2 := Move(r, p, q, above);
    assert Remove(r2, p) == Remove(r, p);
    forall k | 0 <= k < |r| ensures r2[k] == r[k] {
      if k < p {
        assert r2[k] == Remove(r2, p)[k];
        assert r[k] == Remove(r, p)[k];
      } else if k > p {
        assert r2[k] == Remove(r2, p)[k - 1];
        assert r[k] == Remove(r, p)[k - 1];
      }
    }
  }
}
