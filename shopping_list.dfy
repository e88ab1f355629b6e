/** The shopping list screen: a list of items kept either on the server
    (remote mode) or under one key of the device's key-value store (local
    mode), with optimistic add, toggle, edit and delete, and a one-way switch
    to local mode when the server answers 401 or 403. The order shown on
    screen is a pure sort of the in-memory list. */
module ShoppingList {
  import opened Common
  import opened Strings

  /** An item id as the JSON carries it: a server id is a number, a local id
      is a string `local_<ms>_<random>`; an item may also lack one. */
  datatype Id = NoId | Num(n: int) | Text(s: string)

  /** JavaScript truthiness of an id (`if (!id) return;`). */
  predicate Truthy(id: Id) {
    match id
    case NoId => false
    case Num(n) => n != 0
    case Text(s) => s != []
  }

  /** `Number(id) || 0`: a number is itself, a string of decimal digits is
      its value, anything else counts as 0. */
  function NumericId(id: Id): int {
    match id
    case NoId => 0
    case Num(n) => n
    case Text(s) => if AllDigits(s) then DigitsValue(s) else 0
  }

  /** A list entry; a missing `sort_order` or `created_at_ts` is 0. */
  datatype Item = Item(id: Id, title: string, isDone: int, sortOrder: int, createdAt: int)

  // ---------------------------------------------------------------------
  // The order shown on screen (`sortedItems`)

  /** The comparator handed to `Array.prototype.sort`: negative when `a`
      comes first. Not done before done, then ascending `sort_order`, then
      newest `created_at_ts` first, then highest numeric id first. */
  function Compare(a: Item, b: Item): int {
    if a.isDone != b.isDone then a.isDone - b.isDone
    else if a.sortOrder != b.sortOrder then a.sortOrder - b.sortOrder
    else if a.createdAt != b.createdAt then b.createdAt - a.createdAt
    else NumericId(b.id) - NumericId(a.id)
  }

  /** All four sort keys of an item. */
  function Key(a: Item): (int, int, int, int) {
    (a.isDone, a.sortOrder, a.createdAt, NumericId(a.id))
  }

  /** The comparator is consistent: it reverses sign when its arguments are
      swapped, is zero exactly on equal keys, and `<= 0` is transitive, so
      it is a total preorder as `sort` requires. */
  lemma CompareIsTotalPreorder(a: Item, b: Item, c: Item)
    ensures Compare(a, b) == -Compare(b, a)
    ensures Compare(a, b) == 0 <==> Key(a) == Key(b)
    ensures Compare(a, b) <= 0 && Compare(b, c) <= 0 ==> Compare(a, c) <= 0
    ensures Key(a) == Key(b) ==> Compare(c, a) == Compare(c, b)
  {
  }

  predicate Sorted(s: seq<Item>) {
    forall i, j :: 0 <= i < j < |s| ==> Compare(s[i], s[j]) <= 0
  }

  /** Inserts `x` before the first element it does not sort after. */
  function Insert(x: Item, s: seq<Item>): (r: seq<Item>)
    ensures |r| == |s| + 1
    ensures multiset(r) == multiset(s) + multiset{x}
    ensures forall k :: 0 <= k < |r| ==> r[k] == x || r[k] in s
  {
    if s == [] || Compare(x, s[0]) <= 0 then [x] + s
    else
      assert s == [s[0]] + s[1..];
      [s[0]] + Insert(x, s[1..])
  }

  /** Inserting into a sorted list keeps it sorted. */
  lemma {:induction false} InsertSorted(x: Item, s: seq<Item>)
    requires Sorted(s)
    ensures Sorted(Insert(x, s))
  {
    if s == [] || Compare(x, s[0]) <= 0 {
      forall j | 0 <= j < |s| ensures Compare(x, s[j]) <= 0 {
        CompareIsTotalPreorder(x, s[0], s[j]);
      }
      SortedCons(x, s);
    } else {
      var t := Insert(x, s[1..]);
      InsertSorted(x, s[1..]);
      forall k | 0 <= k < |t| ensures Compare(s[0], t[k]) <= 0 {
        if t[k] == x {
          CompareIsTotalPreorder(x, s[0], x);
        } else {
          var j :| 0 <= j < |s[1..]| && s[1..][j] == t[k];
          assert s[j + 1] == t[k];
        }
      }
      SortedCons(s[0], t);
    }
  }

  /** An element that sorts before all of a sorted list can head it. */
  lemma SortedCons(x: Item, t: seq<Item>)
    requires Sorted(t) && forall k :: 0 <= k < |t| ==> Compare(x, t[k]) <= 0
    ensures Sorted([x] + t)
  {
    var r := [x] + t;
    forall i, j | 0 <= i < j < |r| ensures Compare(r[i], r[j]) <= 0 {
      assert r[j] == t[j - 1];
      if i > 0 {
        assert r[i] == t[i - 1];
      }
    }
  }

  /** `sortedItems`: a sorted copy of the list (the sort is stable, as
      ECMAScript requires of `Array.prototype.sort`). */
  function SortedItems(items: seq<Item>): (r: seq<Item>)
    ensures |r| == |items|
    ensures multiset(r) == multiset(items)
    ensures Sorted(r)
  {
    if items == [] then []
    else
      var t := SortedItems(items[1..]);
      assert items == [items[0]] + items[1..];
      InsertSorted(items[0], t);
      Insert(items[0], t)
  }

  /** The elements of `s` whose sort keys equal those of `a`, in order. */
  function SameKey(s: seq<Item>, a: Item): seq<Item> {
    if s == [] then []
    else if Key(s[0]) == Key(a) then [s[0]] + SameKey(s[1..], a)
    else SameKey(s[1..], a)
  }

  lemma {:induction false} InsertStable(x: Item, s: seq<Item>, a: Item)
    ensures SameKey(Insert(x, s), a) ==
      if Key(x) == Key(a) then [x] + SameKey(s, a) else SameKey(s, a)
  {
    if s == [] || Compare(x, s[0]) <= 0 {
      assert ([x] + s)[1..] == s;
    } else {
      var t := Insert(x, s[1..]);
      assert ([s[0]] + t)[1..] == t;
      InsertStable(x, s[1..], a);
      CompareIsTotalPreorder(s[0], x, a);
    }
  }

  /** Stability: among items with equal sort keys, the sorted list keeps the
      order of the unsorted one. */
  lemma {:induction false} SortStable(items: seq<Item>, a: Item)
    ensures SameKey(SortedItems(items), a) == SameKey(items, a)
  {
    if items != [] {
      SortStable(items[1..], a);
      InsertStable(items[0], SortedItems(items[1..]), a);
    }
  }

  /** Sorting an already sorted list changes nothing. */
  lemma {:induction false} SortSorted(items: seq<Item>)
    requires Sorted(items)
    ensures SortedItems(items) == items
  {
    if items != [] {
      assert Sorted(items[1..]);
      SortSorted(items[1..]);
      assert items == [items[0]] + items[1..];
    }
  }

  // ---------------------------------------------------------------------
  // Whole-list edits done by `map` and `filter`

  /** What an optimistic update writes into the matching entries. */
  datatype Patch = SetDone(isDone: int) | SetTitle(title: string)

  function Apply(x: Item, p: Patch): Item {
    match p
    case SetDone(d) => x.(isDone := d)
    case SetTitle(t) => x.(title := t)
  }

  /** `prev.map((x) => x?.id === id ? { ...x, <patch> } : x)` */
  function PatchWhere(s: seq<Item>, id: Id, p: Patch): (r: seq<Item>)
    ensures |r| == |s|
    ensures forall i :: 0 <= i < |s| ==> r[i] == if s[i].id == id then Apply(s[i], p) else s[i]
  {
    if s == [] then [] else [if s[0].id == id then Apply(s[0], p) else s[0]] + PatchWhere(s[1..], id, p)
  }

  /** A later patch of the same field overrides an earlier one, which is how
      a rollback writes over the optimistic change. */
  lemma PatchTwice(s: seq<Item>, id: Id, p: Patch, q: Patch)
    requires p.SetDone? == q.SetDone?
    ensures PatchWhere(PatchWhere(s, id, p), id, q) == PatchWhere(s, id, q)
  {
  }

  /** A patch that writes the values the matching entries already hold leaves
      the list as it was. */
  lemma PatchNoop(s: seq<Item>, id: Id, p: Patch)
    requires forall i :: 0 <= i < |s| && s[i].id == id ==> Apply(s[i], p) == s[i]
    ensures PatchWhere(s, id, p) == s
  {
  }

  /** `prev.filter((x) => x?.id !== id)`: removes exactly the entries with
      that id and keeps the rest in order. */
  function RemoveId(s: seq<Item>, id: Id): (r: seq<Item>)
    ensures IsSubsequence(r, s)
    ensures forall i :: 0 <= i < |r| ==> r[i].id != id
    ensures forall x :: multiset(r)[x] == if x.id == id then 0 else multiset(s)[x]
  {
    if s == [] then []
    else
      assert s == [s[0]] + s[1..];
      if s[0].id == id then RemoveId(s[1..], id) else [s[0]] + RemoveId(s[1..], id)
  }

  // ---------------------------------------------------------------------
  // The storage key (`readLocalList`, `writeLocalList`)

  const LocalKey: string := "shopping_list_local_v1"

  type Store = map<string, Stored<JsArray<Item>>>

  /** `readLocalList`: the stored array, or [] when the key is missing, empty,
      unparseable or not an array. */
  function ReadLocalList(store: Store): (r: seq<Item>)
    ensures LocalKey !in store ==> r == []
    ensures LocalKey in store && store[LocalKey] != Json(Array(r)) ==> r == []
    ensures LocalKey in store && store[LocalKey].Json? ==> r == ArrayOrEmpty(store[LocalKey].value)
  {
    if LocalKey in store && store[LocalKey].Json? then ArrayOrEmpty(store[LocalKey].value) else []
  }

  /** `writeLocalList`: the list is stored, serialized, under the one key;
      every other key is left alone. */
  function WriteLocalList(store: Store, list: seq<Item>): (r: Store)
    ensures ReadLocalList(r) == list
    ensures r.Keys == store.Keys + {LocalKey}
    ensures forall k :: k in store && k != LocalKey ==> r[k] == store[k]
  {
    store[LocalKey := Json(Array(list))]
  }

  /** `makeLocalId()` for a clock reading and a random draw. */
  function LocalId(now: nat, rand: nat): (r: string)
    ensures Truthy(Text(r)) && NumericId(Text(r)) == 0
  {
    assert ("local_" + NatToString(now) + "_" + NatToString(rand))[0] == 'l';
    "local_" + NatToString(now) + "_" + NatToString(rand)
  }

  /** The item `onAdd` synthesizes in local mode. */
  function LocalItem(title: string, now: nat, rand: nat): Item {
    Item(Text(LocalId(now, rand)), title, 0, 0, now)
  }

  /** `Number(item?.is_done) ? 0 : 1` */
  function Flipped(isDone: int): (d: int)
    ensures d == 0 || d == 1
    ensures (d == 1) <==> (isDone == 0)
  {
    if isDone != 0 then 0 else 1
  }

  /** `Number(item?.is_done) ? 1 : 0`, the value a failed toggle restores. */
  function Normalized(isDone: int): (d: int)
    ensures d == 0 || d == 1
    ensures (d == 0) <==> (isDone == 0)
    ensures d == 1 - Flipped(isDone)
  {
    if isDone != 0 then 1 else 0
  }

  /** The remote calls the screen issues, with what they carry. */
  datatype Request = GetAll | Create(title: string) | ToggleDone(id: Id, isDone: int)
                   | UpdateTitle(id: Id, title: string) | Remove(id: Id)

  /** `!accessToken` is false. */
  predicate HasToken(token: Option<string>) {
    token.Some? && token.value != []
  }

  /** The branch every operation takes first: `useLocal || !accessToken`. */
  predicate LocalMode(useLocal: bool, token: Option<string>) {
    useLocal || !HasToken(token)
  }

  class Screen {
    var items: seq<Item>
    var refreshing: bool
    var newTitle: string
    var adding: bool
    var editOpen: bool
    var editItem: Option<Item>
    var editTitle: string
    var useLocal: bool
    /** The device's key-value store as this screen reads and writes it. */
    var store: Store

    /** The text inputs and the edit dialog. */
    function Inputs(): (string, bool, Option<Item>, string)
      reads this
    {
      (newTitle, editOpen, editItem, editTitle)
    }

    constructor (store: Store)
      ensures items == [] && !refreshing && newTitle == [] && !adding
      ensures !editOpen && editItem == None && editTitle == []
      ensures !useLocal && this.store == store
    {
      items := [];
      refreshing := false;
      newTitle := [];
      adding := false;
      editOpen := false;
      editItem := None;
      editTitle := [];
      useLocal := false;
      this.store := store;
    }

    /** `setItemsAndPersistLocal`: the new list goes to memory and storage. */
    method SetItemsAndPersistLocal(next: seq<Item>)
      modifies this
      ensures items == next && store == WriteLocalList(old(store), next)
      ensures useLocal == old(useLocal) && refreshing == old(refreshing) && adding == old(adding)
      ensures Inputs() == old(Inputs())
    {
      items := next;
      store := WriteLocalList(store, next);
    }

    /** `load`. In local mode, or without a token, the stored list replaces
        the items and local mode is entered without any remote call.
        Otherwise the server's list replaces the items and remote mode
        holds; a 401/403 falls back to the stored list and local mode; any
        other failure keeps the items. */
    method Load(token: Option<string>, fetched: Response<JsArray<Item>>) returns (requests: seq<Request>)
      modifies this
      ensures old(useLocal) ==> useLocal
      ensures !refreshing && adding == old(adding)
      ensures store == old(store) && Inputs() == old(Inputs())
      ensures LocalMode(old(useLocal), token) ==>
        requests == [] && items == ReadLocalList(old(store)) && useLocal
      ensures !LocalMode(old(useLocal), token) ==> requests == [GetAll]
      ensures !LocalMode(old(useLocal), token) && fetched.Ok? ==>
        items == ArrayOrEmpty(fetched.data) && !useLocal
      ensures !LocalMode(old(useLocal), token) && IsUnauthorized(fetched) ==>
        items == ReadLocalList(old(store)) && useLocal
      ensures !LocalMode(old(useLocal), token) && fetched.Failed? && !IsUnauthorized(fetched) ==>
        items == old(items) && useLocal == old(useLocal)
    {
      refreshing := true;
      if useLocal || !HasToken(token) {
        items := ReadLocalList(store);
        useLocal := true;
        refreshing := false;
        requests := [];
        return;
      }
      requests := [GetAll];
      if fetched.Ok? {
        items := ArrayOrEmpty(fetched.data);
        useLocal := false;
      } else if IsUnauthorized(fetched) {
        items := ReadLocalList(store);
        useLocal := true;
      }
      refreshing := false;
    }

    /** `onAdd`, with the clock reading and random draw `makeLocalId` and
        `Date.now()` would make, and the outcomes of the create call and of
        the reload that follows a created item without an id. A blank
        trimmed title changes nothing; in local mode a synthesized item goes
        first, in memory and in storage. */
    method OnAdd(token: Option<string>, created: Response<Option<Item>>, reload: Response<JsArray<Item>>,
                 now: nat, rand: nat) returns (requests: seq<Request>)
      requires rand < 100000
      modifies this
      ensures old(useLocal) ==> useLocal
      ensures editOpen == old(editOpen) && editItem == old(editItem) && editTitle == old(editTitle)
      ensures Trim(old(newTitle)) == [] ==>
        requests == [] && items == old(items) && store == old(store) && useLocal == old(useLocal) &&
        newTitle == old(newTitle) && adding == old(adding) && refreshing == old(refreshing)
      ensures Trim(old(newTitle)) != [] ==> !adding
      ensures Trim(old(newTitle)) != [] && LocalMode(old(useLocal), token) ==>
        requests == [] && items == [LocalItem(Trim(old(newTitle)), now, rand)] + old(items) &&
        store == WriteLocalList(old(store), items) && useLocal == old(useLocal) &&
        newTitle == [] && refreshing == old(refreshing)
      ensures Trim(old(newTitle)) != [] && !LocalMode(old(useLocal), token) ==>
        Added(Trim(old(newTitle)), created, reload, now, rand, old(items), old(store), old(newTitle), old(refreshing), requests)
    {
      var title := Trim(newTitle);
      if title == [] {
        requests := [];
        return;
      }
      adding := true;
      if useLocal || !HasToken(token) {
        SetItemsAndPersistLocal([LocalItem(title, now, rand)] + items);
        newTitle := [];
        requests := [];
      } else {
        requests := AddRemote(token, title, created, reload, now, rand);
      }
      adding := false;
    }

    /** The state after a remote `create` call for `title` made from a
        screen holding `items0`, `store0`, `newTitle0` and `refreshing0`:
        a created item with an id goes first; one without an id makes the
        screen reload; a 401/403 synthesizes a local item, stores the list and
        enters local mode; any other failure keeps everything, including the
        typed title. */
    ghost predicate Added(title: string, created: Response<Option<Item>>, reload: Response<JsArray<Item>>,
                          now: nat, rand: nat, items0: seq<Item>, store0: Store, newTitle0: string,
                          refreshing0: bool, requests: seq<Request>)
      reads this
    {
      && |requests| >= 1 && requests[0] == Create(title)
      && (created.Ok? && created.data.Some? && Truthy(created.data.value.id) ==>
            requests == [Create(title)] && items == [created.data.value] + items0 &&
            store == store0 && !useLocal && newTitle == [] && refreshing == refreshing0)
      && (created.Ok? && !(created.data.Some? && Truthy(created.data.value.id)) ==>
            requests == [Create(title), GetAll] && store == store0 && newTitle == [] && !refreshing &&
            (reload.Ok? ==> items == ArrayOrEmpty(reload.data) && !useLocal) &&
            (IsUnauthorized(reload) ==> items == ReadLocalList(store0) && useLocal) &&
            (reload.Failed? && !IsUnauthorized(reload) ==> items == items0 && !useLocal))
      && (IsUnauthorized(created) ==>
            requests == [Create(title)] && useLocal &&
            items == [LocalItem(title, now, rand)] + items0 &&
            store == WriteLocalList(store0, items) && newTitle == [] && refreshing == refreshing0)
      && (created.Failed? && !IsUnauthorized(created) ==>
            requests == [Create(title)] && items == items0 && store == store0 &&
            !useLocal && newTitle == newTitle0 && refreshing == refreshing0)
    }

    /** The remote half of `onAdd`. */
    method AddRemote(token: Option<string>, title: string, created: Response<Option<Item>>,
                     reload: Response<JsArray<Item>>, now: nat, rand: nat) returns (requests: seq<Request>)
      requires rand < 100000
      requires !LocalMode(useLocal, token)
      modifies this
      ensures Added(title, created, reload, now, rand, old(items), old(store), old(newTitle), old(refreshing), requests)
      ensures editOpen == old(editOpen) && editItem == old(editItem) && editTitle == old(editTitle)
      ensures adding == old(adding)
    {
      requests := [Create(title)];
      if created.Ok? {
        if created.data.Some? && Truthy(created.data.value.id) {
          items := [created.data.value] + items;
        } else {
          var more := Load(token, reload);
          requests := requests + more;
        }
        newTitle := [];
      } else if IsUnauthorized(created) {
        useLocal := true;
        SetItemsAndPersistLocal([LocalItem(title, now, rand)] + items);
        newTitle := [];
      }
    }

    /** `onToggle(item)`. Only entries whose id equals the item's change,
        their `is_done` becoming the flip of the item's. In local mode the
        change is stored at once. Remotely it is applied first; a 401/403
        keeps it in memory and enters local mode but stores the list as it
        was BEFORE the change; any other failure sets the entries back to
        the item's own `is_done`, normalized to 0 or 1. */
    method OnToggle(token: Option<string>, item: Item, outcome: Response<()>) returns (requests: seq<Request>)
      modifies this
      ensures old(useLocal) ==> useLocal
      ensures refreshing == old(refreshing) && adding == old(adding) && Inputs() == old(Inputs())
      ensures !Truthy(item.id) ==>
        requests == [] && items == old(items) && store == old(store) && useLocal == old(useLocal)
      ensures Truthy(item.id) && LocalMode(old(useLocal), token) ==>
        requests == [] && items == PatchWhere(old(items), item.id, SetDone(Flipped(item.isDone))) &&
        store == WriteLocalList(old(store), items) && useLocal == old(useLocal)
      ensures Truthy(item.id) && !LocalMode(old(useLocal), token) ==>
        requests == [ToggleDone(item.id, Flipped(item.isDone))]
      ensures Truthy(item.id) && !LocalMode(old(useLocal), token) && outcome.Ok? ==>
        items == PatchWhere(old(items), item.id, SetDone(Flipped(item.isDone))) &&
        store == old(store) && !useLocal
      ensures Truthy(item.id) && !LocalMode(old(useLocal), token) && IsUnauthorized(outcome) ==>
        items == PatchWhere(old(items), item.id, SetDone(Flipped(item.isDone))) &&
        store == WriteLocalList(old(store), old(items)) && useLocal
      ensures Truthy(item.id) && !LocalMode(old(useLocal), token) && outcome.Failed? && !IsUnauthorized(outcome) ==>
        items == PatchWhere(old(items), item.id, SetDone(Normalized(item.isDone))) &&
        store == old(store) && !useLocal
    {
      requests := [];
      var id := item.id;
      if !Truthy(id) {
        return;
      }
      var nextDone := Flipped(item.isDone);
      if useLocal || !HasToken(token) {
        SetItemsAndPersistLocal(PatchWhere(items, id, SetDone(nextDone)));
        return;
      }
      var before := items;
      items := PatchWhere(items, id, SetDone(nextDone));
      requests := [ToggleDone(id, nextDone)];
      if outcome.Failed? {
        if IsUnauthorized(outcome) {
          useLocal := true;
          store := WriteLocalList(store, before);
          return;
        }
        items := PatchWhere(items, id, SetDone(if item.isDone != 0 then 1 else 0));
        PatchTwice(before, id, SetDone(nextDone), SetDone(Normalized(item.isDone)));
      }
    }

    /** `onDelete(item)`, after the confirmation dialog. Exactly the entries
        with the item's id are removed. A 401/403 keeps the removal in memory
        and enters local mode but stores the snapshot taken before it; any
        other failure restores the snapshot. */
    method OnDelete(token: Option<string>, item: Item, outcome: Response<()>) returns (requests: seq<Request>)
      modifies this
      ensures old(useLocal) ==> useLocal
      ensures refreshing == old(refreshing) && adding == old(adding) && Inputs() == old(Inputs())
      ensures !Truthy(item.id) ==>
        requests == [] && items == old(items) && store == old(store) && useLocal == old(useLocal)
      ensures Truthy(item.id) && LocalMode(old(useLocal), token) ==>
        requests == [] && items == RemoveId(old(items), item.id) &&
        store == WriteLocalList(old(store), items) && useLocal == old(useLocal)
      ensures Truthy(item.id) && !LocalMode(old(useLocal), token) ==>
        requests == [Remove(item.id)]
      ensures Truthy(item.id) && !LocalMode(old(useLocal), token) && outcome.Ok? ==>
        items == RemoveId(old(items), item.id) && store == old(store) && !useLocal
      ensures Truthy(item.id) && !LocalMode(old(useLocal), token) && IsUnauthorized(outcome) ==>
        items == RemoveId(old(items), item.id) &&
        store == WriteLocalList(old(store), old(items)) && useLocal
      ensures Truthy(item.id) && !LocalMode(old(useLocal), token) && outcome.Failed? && !IsUnauthorized(outcome) ==>
        items == old(items) && store == old(store) && !useLocal
    {
      requests := [];
      var id := item.id;
      if !Truthy(id) {
        return;
      }
      if useLocal || !HasToken(token) {
        SetItemsAndPersistLocal(RemoveId(items, id));
        return;
      }
      var snapshot := items;
      items := RemoveId(items, id);
      requests := [Remove(id)];
      if outcome.Failed? {
        if IsUnauthorized(outcome) {
          useLocal := true;
          store := WriteLocalList(store, snapshot);
          return;
        }
        items := snapshot;
      }
    }

    /** `openEdit(item)`: the dialog opens on the item with its trimmed title. */
    method OpenEdit(item: Item)
      modifies this
      ensures editOpen && editItem == Some(item) && editTitle == Trim(item.title)
      ensures items == old(items) && store == old(store) && useLocal == old(useLocal)
      ensures refreshing == old(refreshing) && adding == old(adding) && newTitle == old(newTitle)
    {
      editItem := Some(item);
      editTitle := Trim(item.title);
      editOpen := true;
    }

    /** `saveEdit`. Without an item id, or with a blank trimmed title,
        nothing changes. Otherwise entries with that id take the trimmed
        title, with the same local, 401/403 and failure handling as
        `onDelete` (the snapshot is the list before the rename). */
    method SaveEdit(token: Option<string>, outcome: Response<()>) returns (requests: seq<Request>)
      modifies this
      ensures old(useLocal) ==> useLocal
      ensures refreshing == old(refreshing) && adding == old(adding) && newTitle == old(newTitle)
      ensures (old(editItem).None? || !Truthy(old(editItem).value.id) || Trim(old(editTitle)) == []) ==>
        requests == [] && items == old(items) && store == old(store) && useLocal == old(useLocal) &&
        Inputs() == old(Inputs())
      ensures old(editItem).Some? && Truthy(old(editItem).value.id) && Trim(old(editTitle)) != [] ==>
        !editOpen && editItem == None && editTitle == []
      ensures old(editItem).Some? && Truthy(old(editItem).value.id) && Trim(old(editTitle)) != [] &&
              LocalMode(old(useLocal), token) ==>
        requests == [] &&
        items == PatchWhere(old(items), old(editItem).value.id, SetTitle(Trim(old(editTitle)))) &&
        store == WriteLocalList(old(store), items) && useLocal == old(useLocal)
      ensures old(editItem).Some? && Truthy(old(editItem).value.id) && Trim(old(editTitle)) != [] &&
              !LocalMode(old(useLocal), token) ==>
        requests == [UpdateTitle(old(editItem).value.id, Trim(old(editTitle)))] &&
        (outcome.Ok? ==>
          items == PatchWhere(old(items), old(editItem).value.id, SetTitle(Trim(old(editTitle)))) &&
          store == old(store) && !useLocal) &&
        (IsUnauthorized(outcome) ==>
          items == PatchWhere(old(items), old(editItem).value.id, SetTitle(Trim(old(editTitle)))) &&
          store == WriteLocalList(old(store), old(items)) && useLocal) &&
        (outcome.Failed? && !IsUnauthorized(outcome) ==>
          items == old(items) && store == old(store) && !useLocal)
    {
      requests := [];
      var title := Trim(editTitle);
      if editItem.None? || !Truthy(editItem.value.id) {
        return;
      }
      if title == [] {
        return;
      }
      var id := editItem.value.id;
      if useLocal || !HasToken(token) {
        SetItemsAndPersistLocal(PatchWhere(items, id, SetTitle(title)));
        editOpen := false;
        editItem := None;
        editTitle := [];
        return;
      }
      var prev := items;
      items := PatchWhere(items, id, SetTitle(title));
      editOpen := false;
      requests := [UpdateTitle(id, title)];
      if outcome.Failed? {
        if IsUnauthorized(outcome) {
          useLocal := true;
          store := WriteLocalList(store, prev);
        } else {
          items := prev;
        }
      }
      editItem := None;
      editTitle := [];
    }
  }

  // ---------------------------------------------------------------------
  // Consequences of the contracts above

  /** After a non-authorization failure of a remote toggle the item's entries
      hold their pre-toggle `is_done` again, provided that value was already
      0 or 1 and equal to the one on the item the user tapped. */
  lemma ToggleRollbackRestores(before: seq<Item>, item: Item)
    requires forall i :: 0 <= i < |before| && before[i].id == item.id ==>
      before[i].isDone == Normalized(item.isDone)
    ensures PatchWhere(PatchWhere(before, item.id, SetDone(Flipped(item.isDone))), item.id,
                       SetDone(Normalized(item.isDone))) == before
  {
    PatchTwice(before, item.id, SetDone(Flipped(item.isDone)), SetDone(Normalized(item.isDone)));
    PatchNoop(before, item.id, SetDone(Normalized(item.isDone)));
  }

  /** After a 401/403 on a remote toggle, storage holds the list from before
      the toggle, not the list shown: a later load in local mode brings back
      the entries with their old `is_done` whenever the toggle changed one. */
  lemma AuthFallbackStoresPreToggleList(store: Store, before: seq<Item>, item: Item, i: int)
    requires 0 <= i < |before| && before[i].id == item.id && before[i].isDone != Flipped(item.isDone)
    ensures ReadLocalList(WriteLocalList(store, before)) != PatchWhere(before, item.id, SetDone(Flipped(item.isDone)))
  {
    assert PatchWhere(before, item.id, SetDone(Flipped(item.isDone)))[i].isDone == Flipped(item.isDone);
  }
}
