/**
 * The dock-configuration editor (helpers/dock-edit.py): the JSON list of
 * entries held by the backend, the editable row an entry becomes, and the
 * main window's list store, selection and status line.
 */
module DockEdit {
  import opened Optional
  import opened Text

  /** A JSON value as `json.loads` returns it (numbers restricted to integers). */
  datatype Json =
    | Null
    | Bool(b: bool)
    | Num(n: int)
    | Str(s: string)
    | Arr(elems: seq<Json>)
    | Obj(fields: map<string, Json>)

  /** A dock entry as the backend stores it: a JSON object. */
  type Item = map<string, Json>

  /** `d.get(key)`. */
  function Get(d: Item, key: string): (r: Option<Json>)
    ensures r.Some? <==> key in d
    ensures r.Some? ==> r.value == d[key]
  {
    if key in d then Some(d[key]) else None
  }

  /** `[a for a in data if isinstance(a, dict)]`. */
  function Dicts(data: seq<Json>): (r: seq<Item>)
    ensures |r| <= |data|
    ensures forall d :: d in r ==> Obj(d) in data
  {
    if data == [] then []
    else
      var rest := Dicts(data[..|data| - 1]);
      assert forall x :: x in data[..|data| - 1] ==> x in data;
      if data[|data| - 1].Obj? then rest + [data[|data| - 1].fields] else rest
  }

  /** The filter keeps the objects in their order and drops nothing else. */
  lemma {:induction false} DictsAppend(a: seq<Json>, b: seq<Json>)
    ensures Dicts(a + b) == Dicts(a) + Dicts(b)
  {
    if b == [] {
      assert a + b == a;
    } else {
      assert (a + b)[..|a + b| - 1] == a + b[..|b| - 1];
      assert (a + b)[|a + b| - 1] == b[|b| - 1];
      DictsAppend(a, b[..|b| - 1]);
    }
  }

  /** A list of objects passes the filter unchanged. */
  lemma {:induction false} DictsOfObjects(items: seq<Item>)
    ensures Dicts(seq(|items|, i requires 0 <= i < |items| => Obj(items[i]))) == items
  {
    var objs := seq(|items|, i requires 0 <= i < |items| => Obj(items[i]));
    if items != [] {
      var init := items[..|items| - 1];
      DictsOfObjects(init);
      assert objs[..|objs| - 1] == seq(|init|, i requires 0 <= i < |init| => Obj(init[i]));
      assert items == init + [items[|items| - 1]];
    }
  }

  /** What `load` leaves in `apps`: the file's contents, `None` standing for a missing or unparsable file. */
  function LoadedApps(file: Option<Json>): (r: seq<Item>)
    ensures file.None? ==> r == []
    ensures file.Some? && !file.value.Arr? ==> r == []
    ensures file.Some? && file.value.Arr? ==> r == Dicts(file.value.elems)
  {
    match file
    case None => []
    case Some(data) => if data.Arr? then Dicts(data.elems) else []
  }

  /** `str(v)` for a decoded JSON integer. */
  function IntStr(n: int): (r: string)
    ensures n >= 0 ==> r == NatStr(n)
    ensures n < 0 ==> r == "-" + NatStr(-n)
  {
    if n >= 0 then NatStr(n) else "-" + NatStr(-n)
  }

  /**
   * `safe_str(v)`: `""` for `None` (a missing key or JSON `null`), the string
   * itself for a string, and `str(v)` otherwise; `repr` stands for `str` on
   * lists and objects.
   */
  function SafeStr(v: Option<Json>, repr: Json -> string): (r: string)
    ensures v.None? || v == Some(Null) ==> r == ""
    ensures v.Some? && v.value.Str? ==> r == v.value.s
    ensures v.Some? && v.value.Bool? ==> r == if v.value.b then "True" else "False"
    ensures v.Some? && v.value.Num? ==> r == IntStr(v.value.n)
  {
    match v
    case None => ""
    case Some(j) =>
      match j
      case Null => ""
      case Bool(b) => if b then "True" else "False"
      case Num(n) => IntStr(n)
      case Str(s) => s
      case _ => repr(j)
  }

  /** An `AppRow`: the four string properties of one list entry. */
  datatype Row = Row(title: string, execCmd: string, icon: string, appId: string)

  /** `AppRow.__init__(d)`. */
  function RowOf(d: Item, repr: Json -> string): (r: Row)
    ensures "title" !in d ==> r.title == ""
    ensures "title" in d && d["title"].Str? ==> r.title == d["title"].s
    ensures "exec" !in d ==> r.execCmd == ""
    ensures "exec" in d && d["exec"].Str? ==> r.execCmd == d["exec"].s
  {
    Row(SafeStr(Get(d, "title"), repr), SafeStr(Get(d, "exec"), repr),
        SafeStr(Get(d, "icon"), repr), SafeStr(Get(d, "app_id"), repr))
  }

  /** `AppRow.to_dict()`: title and exec always; icon and app id only when non-blank, and stripped. */
  function ToDict(r: Row): (d: Item)
    ensures "title" in d && d["title"] == Str(r.title)
    ensures "exec" in d && d["exec"] == Str(r.execCmd)
    ensures "icon" in d <==> Strip(r.icon) != ""
    ensures "icon" in d ==> d["icon"] == Str(Strip(r.icon))
    ensures "app_id" in d <==> Strip(r.appId) != ""
    ensures "app_id" in d ==> d["app_id"] == Str(Strip(r.appId))
    ensures d.Keys <= {"title", "exec", "icon", "app_id"}
  {
    DictOf(r.title, r.execCmd, Strip(r.icon), Strip(r.appId))
  }

  /** The dictionary `to_dict` builds from the title, the exec and the already stripped icon and app id. */
  function DictOf(title: string, exec: string, icon: string, appId: string): (d: Item)
    ensures "title" in d && d["title"] == Str(title)
    ensures "exec" in d && d["exec"] == Str(exec)
    ensures "icon" in d <==> icon != ""
    ensures "icon" in d ==> d["icon"] == Str(icon)
    ensures "app_id" in d <==> appId != ""
    ensures "app_id" in d ==> d["app_id"] == Str(appId)
    ensures d.Keys <= {"title", "exec", "icon", "app_id"}
  {
    var base := map["title" := Str(title), "exec" := Str(exec)];
    var withIcon := if icon != "" then base["icon" := Str(icon)] else base;
    if appId != "" then withIcon["app_id" := Str(appId)] else withIcon
  }

  /** The row a saved entry loads back as: the same title and exec, the icon and app id stripped. */
  function Canonical(r: Row): Row {
    Row(r.title, r.execCmd, Strip(r.icon), Strip(r.appId))
  }

  /** Stripping twice is stripping once. */
  lemma StripIdempotent(x: string)
    ensures Strip(Strip(x)) == Strip(x)
  {
  }

  /** `safe_str` of a present string value is that string. */
  lemma SafeStrOfStr(d: Item, key: string, repr: Json -> string)
    requires key in d && d[key].Str?
    ensures SafeStr(Get(d, key), repr) == d[key].s
  {
  }

  /** `safe_str` of a missing key is the empty string. */
  lemma SafeStrOfMissing(d: Item, key: string, repr: Json -> string)
    requires key !in d
    ensures SafeStr(Get(d, key), repr) == ""
  {
  }

  /** Reading a serialised row back gives its canonical form. */
  lemma RowOfToDict(r: Row, repr: Json -> string)
    ensures RowOf(ToDict(r), repr) == Canonical(r)
  {
    var d := ToDict(r);
    SafeStrOfStr(d, "title", repr);
    SafeStrOfStr(d, "exec", repr);
    if Strip(r.icon) != "" { SafeStrOfStr(d, "icon", repr); } else { SafeStrOfMissing(d, "icon", repr); }
    if Strip(r.appId) != "" { SafeStrOfStr(d, "app_id", repr); } else { SafeStrOfMissing(d, "app_id", repr); }
  }

  /** Serialising only ever looks at the stripped icon and app id. */
  lemma ToDictCanonical(r: Row)
    ensures ToDict(Canonical(r)) == ToDict(r)
  {
    StripIdempotent(r.icon);
    StripIdempotent(r.appId);
  }

  /** Serialising a row and reading it back gives its canonical form, on which serialising is stable. */
  lemma RowRoundTrip(r: Row, repr: Json -> string)
    ensures RowOf(ToDict(r), repr) == Canonical(r)
    ensures ToDict(Canonical(r)) == ToDict(r)
    ensures Canonical(Canonical(r)) == Canonical(r)
  {
    RowOfToDict(r, repr);
    ToDictCanonical(r);
  }

  /** `list.pop(i)`. */
  function Remove<T>(s: seq<T>, i: nat): (r: seq<T>)
    requires i < |s|
    ensures |r| == |s| - 1
  {
    s[..i] + s[i + 1..]
  }

  /** `list.insert(i, x)` for an index within the list. */
  function Insert<T>(s: seq<T>, i: nat, x: T): (r: seq<T>)
    requires i <= |s|
    ensures |r| == |s| + 1
  {
    s[..i] + [x] + s[i..]
  }

  /** `pop(i)` keeps the items before `i` and shifts those after it down by one. */
  lemma RemoveContents<T>(s: seq<T>, i: nat)
    requires i < |s|
    ensures forall j :: 0 <= j < i ==> Remove(s, i)[j] == s[j]
    ensures forall j :: i <= j < |s| - 1 ==> Remove(s, i)[j] == s[j + 1]
  {
  }

  /** `insert(i, x)` puts `x` at `i`, keeps the items before it and shifts the rest up by one. */
  lemma InsertContents<T>(s: seq<T>, i: nat, x: T)
    requires i <= |s|
    ensures Insert(s, i, x)[i] == x
    ensures forall j :: 0 <= j < i ==> Insert(s, i, x)[j] == s[j]
    ensures forall j :: i < j <= |s| ==> Insert(s, i, x)[j] == s[j - 1]
  {
  }

  /** `item = s.pop(a); s.insert(b, item)`. */
  function Moved<T>(s: seq<T>, a: nat, b: nat): seq<T>
    requires a < |s| && b < |s|
  {
    Insert(Remove(s, a), b, s[a])
  }

  lemma RemoveMultiset<T>(s: seq<T>, i: nat)
    requires i < |s|
    ensures multiset(Remove(s, i)) + multiset{s[i]} == multiset(s)
  {
    assert s == s[..i] + [s[i]] + s[i + 1..];
  }

  lemma InsertMultiset<T>(s: seq<T>, i: nat, x: T)
    requires i <= |s|
    ensures multiset(Insert(s, i, x)) == multiset(s) + multiset{x}
  {
    assert s == s[..i] + s[i..];
  }

  lemma RemoveInsert<T>(s: seq<T>, i: nat, x: T)
    requires i <= |s|
    ensures Remove(Insert(s, i, x), i) == s
  {
  }

  /** Removing an item and inserting another at the same place replaces it. */
  lemma ReplaceAt<T>(s: seq<T>, i: nat, x: T)
    requires i < |s|
    ensures Insert(Remove(s, i), i, x) == s[i := x]
  {
  }

  /**
   * A move keeps the length and the items (as a multiset), puts the moved
   * item at `b`, keeps everything else in its relative order, and is undone
   * by moving back.
   */
  lemma MovedProps<T>(s: seq<T>, a: nat, b: nat)
    requires a < |s| && b < |s|
    ensures |Moved(s, a, b)| == |s|
    ensures Moved(s, a, b)[b] == s[a]
    ensures Remove(Moved(s, a, b), b) == Remove(s, a)
    ensures multiset(Moved(s, a, b)) == multiset(s)
    ensures Moved(Moved(s, a, b), b, a) == s
  {
    var m := Moved(s, a, b);
    RemoveMultiset(s, a);
    InsertMultiset(Remove(s, a), b, s[a]);
    RemoveInsert(Remove(s, a), b, s[a]);
    assert Remove(m, b) == Remove(s, a);
    assert Moved(m, b, a) == Insert(Remove(s, a), a, s[a]);
    assert Insert(Remove(s, a), a, s[a]) == s;
  }

  /** Moving an item one place swaps it with its neighbour. */
  lemma MovedAdjacent<T>(s: seq<T>, a: nat, b: nat)
    requires a < |s| && b < |s| && (b == a + 1 || a == b + 1)
    ensures Moved(s, a, b) == s[a := s[b]][b := s[a]]
  {
  }

  /** `WlOverviewBackend`: the list of dock entries and the number of times it was written out. */
  class Backend {
    var apps: seq<Item>
    var saves: nat

    /** Construction loads the file at once. */
    constructor (file: Option<Json>)
      ensures apps == LoadedApps(file) && saves == 0
    {
      apps := LoadedApps(file);
      saves := 0;
    }

    /** `load()`: the file's list, without its non-object elements; anything else gives no entries. */
    method Load(file: Option<Json>) returns (r: seq<Item>)
      modifies this
      ensures apps == LoadedApps(file) && r == apps
      ensures saves == old(saves)
    {
      var data: seq<Json> := [];
      if file.Some? && file.value.Arr? {
        data := file.value.elems;
      }
      apps := Dicts(data);
      r := apps;
    }

    /** `save()`: writes `apps` out (and signals the overview to reload). */
    method Save()
      modifies this
      ensures apps == old(apps) && saves == old(saves) + 1
    {
      saves := saves + 1;
    }

    /** `get_apps()`: a copy of the list. */
    method GetApps() returns (r: seq<Item>)
      ensures r == apps
    {
      r := apps;
    }

    /** `add_app(item)`. */
    method AddApp(item: Item)
      modifies this
      ensures apps == old(apps) + [item]
      ensures saves == old(saves) + 1
    {
      apps := apps + [item];
      Save();
    }

    /** `remove_app(index)`: out of range, nothing happens and nothing is saved. */
    method RemoveApp(index: int)
      modifies this
      ensures 0 <= index < |old(apps)| ==> apps == Remove(old(apps), index) && saves == old(saves) + 1
      ensures !(0 <= index < |old(apps)|) ==> apps == old(apps) && saves == old(saves)
    {
      if !(0 <= index < |apps|) {
        return;
      }
      apps := Remove(apps, index);
      Save();
    }

    /** `move_app(old_index, new_index)`: both must be in range, else nothing happens. */
    method MoveApp(from: int, to: int)
      modifies this
      ensures 0 <= from < |old(apps)| && 0 <= to < |old(apps)| ==>
        apps == Moved(old(apps), from, to) && saves == old(saves) + 1
      ensures !(0 <= from < |old(apps)| && 0 <= to < |old(apps)|) ==>
        apps == old(apps) && saves == old(saves)
    {
      if !(0 <= from < |apps|) {
        return;
      }
      if !(0 <= to < |apps|) {
        return;
      }
      var item := apps[from];
      apps := Remove(apps, from);
      apps := Insert(apps, to, item);
      Save();
    }

    /** `update_app(index, item)`: replaces exactly one entry when in range. */
    method UpdateApp(index: int, item: Item)
      modifies this
      ensures 0 <= index < |old(apps)| ==> apps == old(apps)[index := item] && saves == old(saves) + 1
      ensures !(0 <= index < |old(apps)|) ==> apps == old(apps) && saves == old(saves)
    {
      if !(0 <= index < |apps|) {
        return;
      }
      apps := apps[index := item];
      Save();
    }
  }

  /** `[row.to_dict() for row in store]`. */
  function ToDicts(rows: seq<Row>): (r: seq<Item>)
    ensures |r| == |rows|
    ensures forall i :: 0 <= i < |rows| ==> r[i] == ToDict(rows[i])
  {
    seq(|rows|, i requires 0 <= i < |rows| => ToDict(rows[i]))
  }

  /** `[AppRow(d) for d in apps]`. */
  function RowsOf(apps: seq<Item>, repr: Json -> string): (r: seq<Row>)
    ensures |r| == |apps|
    ensures forall i :: 0 <= i < |apps| ==> r[i] == RowOf(apps[i], repr)
  {
    seq(|apps|, i requires 0 <= i < |apps| => RowOf(apps[i], repr))
  }

  /** The JSON array `save` writes for a list of items. */
  function Objects(items: seq<Item>): (r: seq<Json>)
    ensures |r| == |items|
    ensures forall i :: 0 <= i < |items| ==> r[i] == Obj(items[i])
  {
    seq(|items|, i requires 0 <= i < |items| => Obj(items[i]))
  }

  /** A saved store, loaded again, gives back every row in canonical form, in order. */
  lemma SaveLoadRoundTrip(rows: seq<Row>, repr: Json -> string)
    ensures var back := RowsOf(LoadedApps(Some(Arr(Objects(ToDicts(rows))))), repr);
      |back| == |rows| && forall i :: 0 <= i < |rows| ==> back[i] == Canonical(rows[i])
  {
    var items := ToDicts(rows);
    DictsOfObjects(items);
    assert Objects(items) == seq(|items|, i requires 0 <= i < |items| => Obj(items[i]));
    assert LoadedApps(Some(Arr(Objects(items)))) == items;
    forall i | 0 <= i < |rows| ensures RowOf(items[i], repr) == Canonical(rows[i]) {
      RowOfToDict(rows[i], repr);
    }
  }

  /** The part of the status line after the item count. */
  function StatusTail(selected: Option<nat>): string {
    match selected
    case None => "Double-click an item to edit."
    case Some(k) => "Selected: #" + NatStr(k + 1) + ". Double-click to edit."
  }

  /** The status line for `n` items and the selection (`None` for `Gtk.INVALID_LIST_POSITION`). */
  function StatusText(n: nat, selected: Option<nat>): string {
    NatStr(n) + " item(s). " + StatusTail(selected)
  }

  /** The status line opens with the item count, which reads back as `n`. */
  lemma StatusShowsCount(n: nat, selected: Option<nat>)
    ensures var r := StatusText(n, selected);
      |r| > |NatStr(n)| && r[..|NatStr(n)|] == NatStr(n) && DecimalValue(r[..|NatStr(n)|]) == n
  {
    NatStrRoundTrip(n);
    var count := NatStr(n);
    var rest := " item(s). " + StatusTail(selected);
    assert StatusText(n, selected) == count + rest;
    assert (count + rest)[..|count|] == count;
  }

  /** Only a selection reports a position, and that position is one-based. */
  lemma StatusShowsSelection(n: nat, k: nat)
    ensures var tail := StatusTail(Some(k));
      tail[..11] == "Selected: #" &&
      tail[11..11 + |NatStr(k + 1)|] == NatStr(k + 1) &&
      DecimalValue(NatStr(k + 1)) == k + 1
    ensures StatusText(n, None) != StatusText(n, Some(k))
  {
    NatStrRoundTrip(k + 1);
    var tail := StatusTail(Some(k));
    assert tail == "Selected: #" + (NatStr(k + 1) + ". Double-click to edit.");
    var p := NatStr(n) + " item(s). ";
    assert StatusText(n, None)[|p|] == StatusTail(None)[0] == 'D';
    assert StatusText(n, Some(k))[|p|] == tail[0] == 'S';
  }

  /** The `_finish_add`/`_finish_edit` validation: title and exec not blank after stripping. */
  predicate Complete(r: Row) {
    Strip(r.title) != "" && Strip(r.execCmd) != ""
  }

  /**
   * `MainWindow`: the list store of rows, the single selection (with
   * autoselect: something is selected exactly when the store is non-empty)
   * and the status line.
   */
  class Editor {
    var store: seq<Row>
    var selected: Option<nat>
    var status: string
    const backend: Backend

    ghost predicate Valid()
      reads this
    {
      (selected.None? <==> store == []) &&
      (selected.Some? ==> selected.value < |store|)
    }

    /** The window loads the backend's entries into the store on creation. */
    constructor (b: Backend, file: Option<Json>, repr: Json -> string)
      modifies b
      ensures backend == b && Valid()
      ensures b.apps == LoadedApps(file) && b.saves == old(b.saves)
      ensures store == RowsOf(b.apps, repr)
      ensures status == StatusText(|store|, selected)
    {
      backend := b;
      var apps := b.Load(file);
      var rows := RowsOf(apps, repr);
      store := rows;
      selected := if rows == [] then None else Some(0);
      status := StatusText(|rows|, if rows == [] then None else Some(0));
    }

    /** `load_into_store()`: reload from disk, autoselecting the first row. */
    method LoadIntoStore(file: Option<Json>, repr: Json -> string)
      modifies this, backend
      ensures Valid()
      ensures backend.apps == LoadedApps(file) && backend.saves == old(backend.saves)
      ensures store == RowsOf(backend.apps, repr)
      ensures selected == if store == [] then None else Some(0)
      ensures status == StatusText(|store|, selected)
    {
      var apps := backend.Load(file);
      store := [];
      var i := 0;
      while i < |apps|
        invariant 0 <= i <= |apps|
        invariant store == RowsOf(apps[..i], repr)
        invariant backend.apps == apps == LoadedApps(file) && backend.saves == old(backend.saves)
      {
        store := store + [RowOf(apps[i], repr)];
        i := i + 1;
      }
      assert apps[..i] == apps;
      selected := if store == [] then None else Some(0);
      UpdateStatus();
    }

    /** `get_selected_index()`: `-1` for no selection, else its position. */
    method GetSelectedIndex() returns (idx: int)
      ensures idx == if selected.None? then -1 else selected.value
      ensures Valid() ==> -1 <= idx < |store| && (idx == -1 <==> store == [])
    {
      idx := if selected.None? then -1 else selected.value;
    }

    /** `update_status()`. */
    method UpdateStatus()
      modifies this
      ensures status == StatusText(|store|, selected)
      ensures store == old(store) && selected == old(selected)
    {
      status := StatusText(|store|, selected);
    }

    /** `save_from_store()`: the backend's list becomes the store's rows, serialised, and is saved once. */
    method SaveFromStore()
      modifies backend
      ensures backend.apps == ToDicts(store)
      ensures backend.saves == old(backend.saves) + 1
    {
      var apps: seq<Item> := [];
      var i := 0;
      while i < |store|
        invariant 0 <= i <= |store|
        invariant apps == ToDicts(store[..i])
        invariant backend.saves == old(backend.saves)
      {
        apps := apps + [ToDict(store[i])];
        i := i + 1;
      }
      assert store[..i] == store;
      backend.apps := apps;
      backend.Save();
    }

    /** `on_remove()`: with a selection, remove that row; autoselect picks the row now at that place, or the new last one. */
    method OnRemove()
      requires Valid()
      modifies this, backend
      ensures Valid()
      ensures old(selected).None? ==> unchanged(this, backend)
      ensures old(selected).Some? ==> store == Remove(old(store), old(selected).value)
      ensures old(selected).Some? ==>
        selected == if store == [] then None
                    else Some(if old(selected).value < |store| then old(selected).value else |store| - 1)
      ensures old(selected).Some? ==> backend.apps == ToDicts(store) && backend.saves == old(backend.saves) + 1
      ensures old(selected).Some? ==> status == StatusText(|store|, selected)
    {
      var idx := GetSelectedIndex();
      if idx < 0 {
        return;
      }
      RemoveRow(idx);
    }

    /** `store.remove(idx)` and what follows it in `on_remove`: saving and the status. */
    method RemoveRow(idx: nat)
      requires Valid() && idx < |store|
      modifies this, backend
      ensures Valid()
      ensures store == Remove(old(store), idx)
      ensures selected == if store == [] then None else Some(if idx < |store| then idx else |store| - 1)
      ensures backend.apps == ToDicts(store) && backend.saves == old(backend.saves) + 1
      ensures status == StatusText(|store|, selected)
    {
      var rest := Remove(store, idx);
      var next: Option<nat> := if rest == [] then None else Some(if idx < |rest| then idx else |rest| - 1);
      store, selected := rest, next;
      SaveFromStore();
      UpdateStatus();
    }

    /** `item = store.get_item(from); store.remove(from); store.insert(to, item)`. */
    method MoveRow(from: nat, to: nat)
      requires from < |store| && to < |store|
      modifies this
      ensures store == Moved(old(store), from, to)
      ensures selected == old(selected) && status == old(status)
    {
      var item := store[from];
      store := Remove(store, from);
      store := Insert(store, to, item);
    }

    /** `on_move_up()`: swap the selected row with the one above and keep it selected. */
    method OnMoveUp()
      requires Valid()
      modifies this, backend
      ensures Valid()
      ensures old(selected).None? || old(selected).value == 0 ==> unchanged(this, backend)
      ensures old(selected).Some? && old(selected).value > 0 ==>
        store == Moved(old(store), old(selected).value, old(selected).value - 1) &&
        selected == Some(old(selected).value - 1)
      ensures old(selected).Some? && old(selected).value > 0 ==>
        backend.apps == ToDicts(store) && backend.saves == old(backend.saves) + 1
      ensures old(selected).Some? && old(selected).value > 0 ==> status == StatusText(|store|, selected)
    {
      var idx := GetSelectedIndex();
      if idx <= 0 {
        return;
      }
      MoveRow(idx, idx - 1);
      selected := Some(idx - 1);
      SaveFromStore();
      UpdateStatus();
    }

    /** `on_move_down()`: swap the selected row with the one below (unless it is the last) and keep it selected. */
    method OnMoveDown()
      requires Valid()
      modifies this, backend
      ensures Valid()
      ensures old(selected).None? || old(selected).value >= |old(store)| - 1 ==> unchanged(this, backend)
      ensures old(selected).Some? && old(selected).value < |old(store)| - 1 ==>
        store == Moved(old(store), old(selected).value, old(selected).value + 1) &&
        selected == Some(old(selected).value + 1)
      ensures old(selected).Some? && old(selected).value < |old(store)| - 1 ==>
        backend.apps == ToDicts(store) && backend.saves == old(backend.saves) + 1
      ensures old(selected).Some? && old(selected).value < |old(store)| - 1 ==>
        status == StatusText(|store|, selected)
    {
      var idx := GetSelectedIndex();
      var n := |store|;
      if idx < 0 || idx >= n - 1 {
        return;
      }
      MoveRow(idx, idx + 1);
      selected := Some(idx + 1);
      SaveFromStore();
      UpdateStatus();
    }

    /** `_finish_add(dlg)`: a complete result is appended (autoselected if the store was empty) and saved. */
    method FinishAdd(res: Option<Row>)
      requires Valid()
      modifies this, backend
      ensures Valid()
      ensures !(res.Some? && Complete(res.value)) ==> unchanged(this, backend)
      ensures res.Some? && Complete(res.value) ==>
        store == old(store) + [res.value] &&
        selected == (if old(store) == [] then Some(0) else old(selected))
      ensures res.Some? && Complete(res.value) ==>
        backend.apps == ToDicts(store) && backend.saves == old(backend.saves) + 1
      ensures res.Some? && Complete(res.value) ==> status == StatusText(|store|, selected)
    {
      if res.None? || Strip(res.value.title) == "" || Strip(res.value.execCmd) == "" {
        return;
      }
      var wasEmpty := store == [];
      store := store + [res.value];
      if wasEmpty {
        selected := Some(0);
      }
      SaveFromStore();
      UpdateStatus();
    }

    /** `_finish_edit(dlg, index)` for the row that was activated: a complete result replaces it in place and is selected. */
    method FinishEdit(res: Option<Row>, index: nat)
      requires Valid() && index < |store|
      modifies this, backend
      ensures Valid()
      ensures !(res.Some? && Complete(res.value)) ==> unchanged(this, backend)
      ensures res.Some? && Complete(res.value) ==>
        store == old(store)[index := res.value] && selected == Some(index)
      ensures res.Some? && Complete(res.value) ==>
        backend.apps == ToDicts(store) && backend.saves == old(backend.saves) + 1
      ensures res.Some? && Complete(res.value) ==> status == StatusText(|store|, selected)
    {
      if res.None? || Strip(res.value.title) == "" || Strip(res.value.execCmd) == "" {
        return;
      }
      ReplaceAt(store, index, res.value);
      store := Remove(store, index);
      store := Insert(store, index, res.value);
      selected := Some(index);
      SaveFromStore();
      UpdateStatus();
    }
  }

  /** Moving the selection up and then down again restores the store. */
  lemma MoveUpThenDown<T>(s: seq<T>, k: nat)
    requires 0 < k < |s|
    ensures Moved(Moved(s, k, k - 1), k - 1, k) == s
  {
    MovedProps(s, k, k - 1);
  }
}
