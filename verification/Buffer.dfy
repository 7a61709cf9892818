// The fixed-size ring of item groups that remembers which messages were seen.
module Buffer {
  import opened Wrappers
  import opened Lamport

  newtype Byte = b: int | 0 <= b < 256
  type QueryId = n: nat | n < 0x1_0000_0000

  // A byte slice that may be nil, which differs from an empty one in Equal.
  datatype Payload = Nil | Bytes(bytes: seq<Byte>) {
    function Content(): seq<Byte> {
      if Nil? then [] else bytes
    }
  }

  // Actions carry a payload and id 0, queries an id and a nil payload.
  datatype Item = Item(ltime: LTime, id: QueryId, payload: Payload)

  // Whether a stored item makes an offered one a duplicate. A stored nil
  // payload compares ids, so the relation is not symmetric.
  predicate Equal(stored: Item, offered: Item) {
    stored.ltime == offered.ltime &&
    if stored.payload.Bytes? then stored.payload.bytes == offered.payload.Content()
    else stored.id == offered.id
  }

  datatype Group = Group(ltime: LTime, items: seq<Item>)

  type Ring = r: seq<Option<Group>> | |r| > 0 witness [None]

  predicate HasEqual(items: seq<Item>, x: Item) {
    exists k :: 0 <= k < |items| && Equal(items[k], x)
  }

  // Below the window of n times that ends at the clock, which starts at 0
  // while the clock is at most n.
  predicate TooOld(n: nat, clock: LTime, t: LTime) {
    clock > n && t < clock - n
  }

  // The ring after an item is offered to it, and whether the item was taken.
  function RingAdd(ring: Ring, clock: LTime, x: Item): (Ring, bool) {
    var i := x.ltime % |ring|;
    if TooOld(|ring|, clock, x.ltime) then (ring, false)
    else if ring[i].None? || ring[i].value.ltime < x.ltime then
      (ring[i := Some(Group(x.ltime, [x]))], true)
    else if HasEqual(ring[i].value.items, x) then (ring, false)
    else (ring[i := Some(Group(ring[i].value.ltime, ring[i].value.items + [x]))], true)
  }

  class GroupItem {
    var items: seq<Item>
    var ltime: LTime

    constructor (x: Item)
      ensures items == [x] && ltime == x.ltime
    {
      items, ltime := [x], x.ltime;
    }

    method Has(x: Item) returns (found: bool)
      ensures found <==> HasEqual(items, x)
    {
      for k := 0 to |items|
        invariant forall j :: 0 <= j < k ==> !Equal(items[j], x)
      {
        if Equal(items[k], x) {
          return true;
        }
      }
      return false;
    }

    method Add(x: Item)
      modifies this`items
      ensures items == old(items) + [x]
    {
      items := items + [x];
    }
  }

  class LBuffer {
    const slots: array<GroupItem?>
    // The groups in use, and the ring they make up.
    ghost var groups: set<GroupItem>
    ghost var contents: Ring

    ghost function Repr(): set<object>
      reads this
    {
      {this, slots} + groups
    }

    // The ring is not empty and no two slots share a group object.
    ghost predicate Valid()
      reads Repr()
    {
      && slots.Length == |contents|
      && (forall i :: 0 <= i < slots.Length ==>
            if slots[i] == null then contents[i].None?
            else slots[i] in groups && contents[i] == Some(Group(slots[i].ltime, slots[i].items)))
      && forall i, j :: 0 <= i < j < slots.Length && slots[i] != null ==> slots[i] != slots[j]
    }

    constructor (size: nat)
      requires size > 0
      ensures Valid() && fresh(Repr())
      ensures contents == seq(size, i => None)
    {
      slots := new GroupItem?[size](i => null);
      groups, contents := {}, seq(size, i => None);
    }

    method IsTooOld(clock: LTime, x: Item) returns (tooOld: bool)
      requires Valid()
      ensures tooOld <==> TooOld(|contents|, clock, x.ltime)
    {
      if clock <= slots.Length {
        return false;
      }
      tooOld := x.ltime < clock - slots.Length;
    }

    method IsLTimeNew(t: LTime) returns (isNew: bool)
      requires Valid()
      ensures isNew <==> var s := contents[t % |contents|]; s.None? || s.value.ltime < t
    {
      var group := slots[t % slots.Length];
      isNew := group == null || group.ltime < t;
    }

    method AddNewLTime(x: Item)
      requires Valid()
      modifies this, slots
      ensures Valid() && fresh(Repr() - old(Repr()))
      ensures contents == old(contents)[x.ltime % |old(contents)| := Some(Group(x.ltime, [x]))]
    {
      var i := x.ltime % slots.Length;
      var group := new GroupItem(x);
      slots[i] := group;
      groups := groups + {group};
      contents := contents[i := Some(Group(x.ltime, [x]))];
    }

    method AddItem(clock: LTime, x: Item) returns (added: bool)
      requires Valid()
      modifies Repr()
      ensures Valid() && fresh(Repr() - old(Repr()))
      ensures (contents, added) == RingAdd(old(contents), clock, x)
    {
      var tooOld := IsTooOld(clock, x);
      if tooOld {
        return false;
      }
      var isNew := IsLTimeNew(x.ltime);
      if isNew {
        AddNewLTime(x);
        return true;
      }
      var i := x.ltime % slots.Length;
      var group := slots[i];
      var found := group.Has(x);
      if found {
        return false;
      }
      group.Add(x);
      contents := contents[i := Some(Group(group.ltime, group.items))];
      return true;
    }
  }
}
