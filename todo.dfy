/** The todo list (app/todo/page.tsx): items with an id, a text and a done
    flag; `add` prepends a trimmed item, `toggle` and `remove` work by id, and
    `left` counts the items not done. */
module Todo {
  import opened Text

  datatype Item = Item(id: string, text: string, done: bool)

  /** `todos.filter(t=>!t.done).length` */
  function Left(todos: seq<Item>): (r: nat)
    ensures r <= |todos|
  {
    if todos == [] then 0 else (if todos[0].done then 0 else 1) + Left(todos[1..])
  }

  /** No item is left exactly when all are done, and all are left exactly
      when none is. */
  lemma {:induction false} LeftExtremes(todos: seq<Item>)
    ensures Left(todos) == 0 <==> forall k :: 0 <= k < |todos| ==> todos[k].done
    ensures Left(todos) == |todos| <==> forall k :: 0 <= k < |todos| ==> !todos[k].done
  {
    if todos != [] {
      LeftExtremes(todos[1..]);
      assert forall k :: 1 <= k < |todos| ==> todos[k] == todos[1..][k - 1];
    }
  }

  /** `p.map(t=>t.id===id?{...t,done:!t.done}:t)` */
  function Toggled(todos: seq<Item>, id: string): (r: seq<Item>)
    ensures |r| == |todos|
    ensures forall k :: 0 <= k < |r| ==> r[k].id == todos[k].id && r[k].text == todos[k].text
    ensures forall k :: 0 <= k < |r| ==> r[k].done == (if todos[k].id == id then !todos[k].done else todos[k].done)
  {
    if todos == [] then []
    else [if todos[0].id == id then todos[0].(done := !todos[0].done) else todos[0]] + Toggled(todos[1..], id)
  }

  /** `p.filter(t=>t.id!==id)` */
  function Removed(todos: seq<Item>, id: string): (r: seq<Item>)
    ensures |r| <= |todos|
    ensures forall x :: x in r <==> x in todos && x.id != id
    ensures (forall k :: 0 <= k < |todos| ==> todos[k].id != id) ==> r == todos
  {
    if todos == [] then []
    else (if todos[0].id == id then [] else [todos[0]]) + Removed(todos[1..], id)
  }

  /** Removal works item by item, so the items kept stay in their order. */
  lemma {:induction false} RemovedConcat(a: seq<Item>, b: seq<Item>, id: string)
    ensures Removed(a + b, id) == Removed(a, id) + Removed(b, id)
  {
    if a != [] {
      assert (a + b)[1..] == a[1..] + b;
      RemovedConcat(a[1..], b, id);
    } else {
      assert a + b == b;
    }
  }

  predicate UniqueIds(todos: seq<Item>) {
    forall i, j :: 0 <= i < j < |todos| ==> todos[i].id != todos[j].id
  }

  /** Toggling twice gives the list back. */
  lemma ToggleTwice(todos: seq<Item>, id: string)
    ensures Toggled(Toggled(todos, id), id) == todos
  {
  }

  /** With unique ids, toggling the item at k changes the count of items
      left by exactly one. */
  lemma {:induction false} ToggleChangesLeftByOne(todos: seq<Item>, k: nat)
    requires UniqueIds(todos) && k < |todos|
    ensures Left(Toggled(todos, todos[k].id)) == if todos[k].done then Left(todos) + 1 else Left(todos) - 1
  {
    var id := todos[k].id;
    LeftToggledCons(todos, id);
    if k == 0 {
      ToggledAbsent(todos[1..], id);
    } else {
      assert UniqueIds(todos[1..]) && todos[1..][k - 1] == todos[k];
      ToggleChangesLeftByOne(todos[1..], k - 1);
    }
  }

  /** Toggling works item by item: the first item's share of the count,
      toggled or not, then the rest. */
  lemma LeftToggledCons(todos: seq<Item>, id: string)
    requires |todos| > 0
    ensures Left(Toggled(todos, id)) ==
      (if todos[0].done == (todos[0].id == id) then 1 else 0) + Left(Toggled(todos[1..], id))
  {
    var x := if todos[0].id == id then todos[0].(done := !todos[0].done) else todos[0];
    var t := Toggled(todos[1..], id);
    assert Toggled(todos, id) == [x] + t;
    LeftCons(x, t);
  }

  lemma LeftCons(x: Item, t: seq<Item>)
    ensures Left([x] + t) == (if x.done then 0 else 1) + Left(t)
  {
    assert ([x] + t)[1..] == t;
  }

  lemma ToggledAbsent(todos: seq<Item>, id: string)
    requires forall k :: 0 <= k < |todos| ==> todos[k].id != id
    ensures Toggled(todos, id) == todos
  {
    var r := Toggled(todos, id);
    forall k | 0 <= k < |todos| ensures r[k] == todos[k] {
      assert r[k].id == todos[k].id && r[k].text == todos[k].text && r[k].done == todos[k].done;
    }
  }

  /** The todo page's state: the input text and the list. */
  class TodoPage {
    var text: string
    var todos: seq<Item>

    ghost predicate Valid()
      reads this
    {
      UniqueIds(todos)
    }

    constructor ()
      ensures text == "" && todos == [] && Valid()
    {
      text, todos := "", [];
    }

    function Remaining(): nat
      reads this
    {
      Left(todos)
    }

    /** `add`: a blank text changes nothing; otherwise the trimmed text is
        prepended as a new item not done, and the input is cleared.
        `freshId` is the `crypto.randomUUID()` value. */
    method Add(freshId: string)
      requires Valid() && forall k :: 0 <= k < |todos| ==> todos[k].id != freshId
      modifies this
      ensures Valid()
      ensures AllSpace(old(text)) ==> text == old(text) && todos == old(todos)
      ensures !AllSpace(old(text)) ==> todos == [Item(freshId, Trim(old(text)), false)] + old(todos) && text == ""
      ensures Left(todos) == Left(old(todos)) + (if AllSpace(old(text)) then 0 else 1)
    {
      var t := Trim(text);
      TrimEmptyIffBlank(text);
      if t == [] {
        return;
      }
      todos := [Item(freshId, t, false)] + todos;
      text := "";
    }

    method SetText(value: string)
      modifies this
      ensures text == value && todos == old(todos)
    {
      text := value;
    }

    /** `toggle(id)` */
    method Toggle(id: string)
      requires Valid()
      modifies this
      ensures Valid() && text == old(text)
      ensures todos == Toggled(old(todos), id)
      ensures forall k :: 0 <= k < |old(todos)| && old(todos)[k].id == id ==>
        Left(todos) == if old(todos)[k].done then Left(old(todos)) + 1 else Left(old(todos)) - 1
    {
      forall k | 0 <= k < |todos| && todos[k].id == id
        ensures Left(Toggled(todos, id)) == if todos[k].done then Left(todos) + 1 else Left(todos) - 1
      {
        ToggleChangesLeftByOne(todos, k);
      }
      todos := Toggled(todos, id);
    }

    /** `remove(id)` */
    method Remove(id: string)
      requires Valid()
      modifies this
      ensures Valid() && text == old(text)
      ensures todos == Removed(old(todos), id)
    {
      RemovedKeepsUnique(todos, id);
      todos := Removed(todos, id);
    }
  }

  lemma {:induction false} RemovedKeepsUnique(todos: seq<Item>, id: string)
    requires UniqueIds(todos)
    ensures UniqueIds(Removed(todos, id))
  {
    if todos != [] {
      RemovedKeepsUnique(todos[1..], id);
      var rest := Removed(todos[1..], id);
      forall x | x in rest ensures x.id != todos[0].id {
        assert x in todos[1..];
      }
    }
  }
}
