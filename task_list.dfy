/** The task-list widget as a state machine: the items of the list container,
    the input area, the drag session (the one-shot "drag allowed" flag armed
    by a handle and the current drag source), and the storage slot. Each
    event handler of the widget is a method. */
module TaskListWidget {
  import opened JsText
  import opened TaskModel

  class TaskList {
    /** The task containers, in document order. */
    var items: seq<Item>
    /** Identity the next created container gets. */
    var nextId: nat
    /** The value of the add input area. */
    var input: string
    /** Set by a mouse press on any handle, consumed by the next drag start. */
    var dragAllowed: bool
    /** The identity of the container being dragged, if any. */
    var dragSrc: Option<nat>
    /** The storage slot. */
    var store: Stored

    /** Containers are distinct elements, every identity was handed out
        before, and the completed class always mirrors the checkbox. */
    ghost predicate Valid()
      reads this
    {
      WellFormed(items, nextId)
    }

    /** Page start: an empty list and an empty input area, no drag in
        progress, the slot as the browser holds it, then the initial load. */
    constructor (stored: Stored)
      ensures Valid()
      ensures store == stored && input == "" && !dragAllowed && dragSrc == None
      ensures items == if stored.Tasks? then Rebuild(stored.records, 0) else []
      ensures nextId == if stored.Tasks? then |stored.records| else 0
    {
      items := [];
      nextId := 0;
      input := "";
      dragAllowed := false;
      dragSrc := None;
      store := stored;
      new;
      Load();
    }

    /** Writes the snapshot of the current list to the slot, overwriting it. */
    method Save()
      modifies this`store
      ensures store == Tasks(Snapshot(items))
    {
      var data: seq<Record> := [];
      for i := 0 to |items|
        invariant data == Snapshot(items[..i])
      {
        var text: string;
        match items[i].view {
          case Editing(b) => text := b;
          case Display(t) => text := t;
        }
        data := data + [Record(text, items[i].done)];
      }
      assert items[..|items|] == items;
      store := Tasks(data);
    }

    /** Reads the slot. An absent or empty value, text that does not parse
        and a parsed value that is not an array leave the list as it is; an
        array of records replaces the whole list with one fresh container
        per record, in order. */
    method Load()
      requires Valid()
      modifies this`items, this`nextId
      ensures Valid()
      ensures !store.Tasks? ==> items == old(items) && nextId == old(nextId)
      ensures store.Tasks? ==>
        items == Rebuild(store.records, old(nextId))
        && nextId == old(nextId) + |store.records|
    {
      if store.Tasks? {
        var rs := store.records;
        items := [];
        var first := nextId;
        for i := 0 to |rs|
          invariant items == Rebuild(rs[..i], first)
          invariant nextId == first + i
        {
          var item := Item(nextId, Display(rs[i].text), false, false, false);
          if rs[i].done {
            item := item.(done := true, completed := true);
          }
          assert rs[..i + 1][..i] == rs[..i];
          items := items + [item];
          nextId := nextId + 1;
        }
        assert rs[..|rs|] == rs;
      }
    }

    /** The add button, and Enter without Shift in the input area. */
    method AddFromInput()
      requires Valid()
      modifies this
      ensures Valid()
      ensures dragAllowed == old(dragAllowed) && dragSrc == old(dragSrc)
      ensures Trim(old(input)) == [] ==>
        items == old(items) && input == old(input) && store == old(store) && nextId == old(nextId)
      ensures Trim(old(input)) != [] ==>
        items == old(items) + [Item(old(nextId), Display(Trim(old(input))), false, false, false)]
        && nextId == old(nextId) + 1
        && input == ""
        && store == Tasks(Snapshot(items))
    {
      var value := Trim(input);
      if value == [] {
        return;
      }
      items := items + [Item(nextId, Display(value), false, false, false)];
      nextId := nextId + 1;
      input := "";
      Save();
    }

    /** The change event of item `i`'s checkbox, which the browser fires
        after flipping the box: the completed class follows, then a save. */
    method CheckboxChange(i: nat)
      requires Valid() && i < |items|
      modifies this
      ensures Valid()
      ensures items == old(items)[i := old(items)[i].(done := !old(items)[i].done, completed := !old(items)[i].done)]
      ensures store == Tasks(Snapshot(items))
      ensures nextId == old(nextId) && input == old(input)
      ensures dragAllowed == old(dragAllowed) && dragSrc == old(dragSrc)
    {
      var checked := !items[i].done;
      items := items[i := items[i].(done := checked, completed := checked)];
      Save();
    }

    /** The delete button of item `i`. */
    method Delete(i: nat)
      requires Valid() && i < |items|
      modifies this
      ensures Valid()
      ensures items == Remove(old(items), i)
      ensures store == Tasks(Snapshot(items))
      ensures nextId == old(nextId) && input == old(input)
      ensures dragAllowed == old(dragAllowed) && dragSrc == old(dragSrc)
    {
      RemoveDistinct(items, i);
      items := Remove(items, i);
      Save();
    }

    /** The edit button of item `i`. In display mode it opens a text area
        holding the current text, without saving; in edit mode it puts the
        text area's value back as the static text, verbatim (an empty value
        included), and saves. */
    method ToggleEdit(i: nat)
      requires Valid() && i < |items|
      modifies this
      ensures Valid()
      ensures old(items)[i].view.Display? ==>
        items == old(items)[i := old(items)[i].(view := Editing(old(items)[i].view.shown))]
        && store == old(store)
      ensures old(items)[i].view.Editing? ==>
        items == old(items)[i := old(items)[i].(view := Display(old(items)[i].view.buffer))]
        && store == Tasks(Snapshot(items))
      ensures nextId == old(nextId) && input == old(input)
      ensures dragAllowed == old(dragAllowed) && dragSrc == old(dragSrc)
    {
      match items[i].view {
        case Editing(b) =>
          items := items[i := items[i].(view := Display(b))];
          Save();
        case Display(t) =>
          items := items[i := items[i].(view := Editing(t))];
      }
    }

    /** Enter without Shift in the text area of item `i`: the event only
        reaches the handler from a text area inside an open editor, and it
        finishes that edit. */
    method EnterInEditor(i: nat)
      requires Valid() && i < |items| && items[i].view.Editing?
      modifies this
      ensures Valid()
      ensures items == old(items)[i := old(items)[i].(view := Display(old(items)[i].view.buffer))]
      ensures store == Tasks(Snapshot(items))
      ensures nextId == old(nextId) && input == old(input)
      ensures dragAllowed == old(dragAllowed) && dragSrc == old(dragSrc)
    {
      ToggleEdit(i);
    }

    /** A mouse press on a drag handle (of any item) arms the next drag. */
    method HandleMouseDown()
      modifies this`dragAllowed
      ensures dragAllowed
    {
      dragAllowed := true;
    }

    /** The drag start event of item `i`. Unless a handle armed it, the drag
        is cancelled and nothing changes; otherwise the flag is consumed and
        `i` becomes the drag source, marked as dragging. */
    method DragStart(i: nat) returns (started: bool)
      requires Valid() && i < |items|
      modifies this
      ensures Valid()
      ensures started == old(dragAllowed)
      ensures !started ==>
        items == old(items) && dragAllowed == old(dragAllowed) && dragSrc == old(dragSrc)
      ensures started ==>
        items == old(items)[i := old(items)[i].(dragging := true)]
        && !dragAllowed && dragSrc == Some(old(items)[i].id)
      ensures store == old(store) && nextId == old(nextId) && input == old(input)
    {
      if !dragAllowed {
        return false;
      }
      dragAllowed := false;
      dragSrc := Some(items[i].id);
      items := items[i := items[i].(dragging := true)];
      return true;
    }

    /** The drag end event of item `i` (the drag source): the dragging mark
        goes, the session ends and the new order is saved. */
    method DragEnd(i: nat)
      requires Valid() && i < |items|
      modifies this
      ensures Valid()
      ensures items == old(items)[i := old(items)[i].(dragging := false)]
      ensures dragSrc == None && dragAllowed == old(dragAllowed)
      ensures store == Tasks(Snapshot(items))
      ensures nextId == old(nextId) && input == old(input)
    {
      items := items[i := items[i].(dragging := false)];
      dragSrc := None;
      Save();
    }

    /** A drag-over event on item `i`; `above` says whether the pointer is
        above the vertical midpoint of that item. Without a drag source, or
        over the source itself, nothing happens; otherwise the source moves
        to just before (`above`) or just after the target. Nothing is saved
        until the drag ends. */
    method DragOver(i: nat, above: bool)
      requires Valid() && i < |items|
      modifies this`items
      ensures Valid()
      ensures old(dragSrc).None? || old(dragSrc) == Some(old(items)[i].id) ==> items == old(items)
      ensures old(dragSrc).Some? && old(dragSrc) != Some(old(items)[i].id) ==>
        match IndexOf(old(items), old(dragSrc).value)
        case None => items == old(items)
        case Some(j) => j != i && items == Move(old(items), j, i, above)
    {
      if dragSrc.None? || dragSrc.value == items[i].id {
        return;
      }
      var found := IndexOf(items, dragSrc.value);
      if found.None? {
        return;
      }
      var j := found.value;
      MoveWellFormed(items, j, i, above, nextId);
      items := Move(items, j, i, above);
    }

    /** The user typing in the add input area (a browser action, not a
        handler of the widget). */
    method SetInput(s: string)
      modifies this`input
      ensures input == s
    {
      input := s;
    }

    /** The user typing in the open editor of item `i` (a browser action,
        not a handler of the widget). */
    method TypeInEditor(i: nat, s: string)
      requires Valid() && i < |items| && items[i].view.Editing?
      modifies this`items
      ensures Valid()
      ensures items == old(items)[i := old(items)[i].(view := Editing(s))]
    {
      items := items[i := items[i].(view := Editing(s))];
    }
  }

  /** Clicking edit twice without typing gives back exactly the list it
      started from (the second click saves). */
  method EditTwice(w: TaskList, i: nat)
    requires w.Valid() && i < |w.items| && w.items[i].view.Display?
    modifies w
    ensures w.Valid()
    ensures w.items == old(w.items)
    ensures w.store == Tasks(Snapshot(w.items))
  {
    w.ToggleEdit(i);
    w.ToggleEdit(i);
  }

  /** Empty storage; add "Buy milk" and "Walk dog"; check the first; edit
      the second to "Walk the dog" and press Enter; reload the page. */
  method EndToEndScenario() returns (reloaded: seq<Record>)
    ensures reloaded == [Record("Buy milk", true), Record("Walk the dog", false)]
  {
    var w := new TaskList(Absent);
    w.SetInput("Buy milk");
    TrimKeeps("Buy milk");
    w.AddFromInput();
    w.SetInput("Walk dog");
    TrimKeeps("Walk dog");
    w.AddFromInput();
    w.CheckboxChange(0);
    w.ToggleEdit(1);
    w.TypeInEditor(1, "Walk the dog");
    w.EnterInEditor(1);
    ghost var saved := [Record("Buy milk", true), Record("Walk the dog", false)];
    assert Snapshot(w.items) == saved by {
      assert TextOf(w.items[0]) == "Buy milk" && w.items[0].done;
      assert TextOf(w.items[1]) == "Walk the dog" && !w.items[1].done;
    }
    var page := new TaskList(w.store);
    SnapshotRebuild(saved, 0);
    reloaded := Snapshot(page.items);
  }
}
