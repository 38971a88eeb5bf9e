/**
 `resource-mg.c`: the addresses a restored client still uses, mapped to those of the new server.
 A sorted list with binary search; to its callers, a map.
 */
module ResourceManager {
  import opened Attempts
  import opened GrowableList

  datatype Entry = Entry(client: nat, cuda: nat)

  ghost predicate Sorted(s: seq<Entry>) {
    forall i, j :: 0 <= i < j < |s| ==> s[i].client < s[j].client
  }

  /** The map a sorted list stands for. */
  ghost function MapOf(s: seq<Entry>): map<nat, nat>
    requires Sorted(s)
  {
    map i | 0 <= i < |s| :: s[i].client := s[i].cuda
  }

  /** What `resource_mg_get` answers: an address that was not restored stands for itself. */
  function Translate(m: map<nat, nat>, address: nat): nat {
    if address in m then m[address] else address
  }

  lemma FoundAt(s: seq<Entry>, i: nat)
    requires Sorted(s) && i < |s|
    ensures s[i].client in MapOf(s) && MapOf(s)[s[i].client] == s[i].cuda
  {
  }

  lemma PlaceOf(s: seq<Entry>, key: nat) returns (i: nat)
    requires Sorted(s) && key in MapOf(s)
    ensures i < |s| && s[i].client == key
  {
    i :| 0 <= i < |s| && s[i].client == key;
  }

  lemma UpdatedMap(m: map<nat, nat>, n: map<nat, nat>, key: nat, value: nat)
    requires forall k :: k in n <==> k == key || k in m
    requires forall k :: k in n ==> n[k] == if k == key then value else m[k]
    ensures n == m[key := value]
  {
  }

  /** Everything before `at` is smaller than `key`, everything from it on larger. */
  ghost predicate Splits(s: seq<Entry>, at: nat, key: nat) {
    at <= |s| && (forall i :: 0 <= i < at ==> s[i].client < key) && (forall i :: at <= i < |s| ==> key < s[i].client)
  }

  ghost function Inserted(s: seq<Entry>, at: nat, e: Entry): (t: seq<Entry>)
    requires at <= |s|
    ensures |t| == |s| + 1 && t[at] == e
    ensures forall i :: 0 <= i < at ==> t[i] == s[i]
    ensures forall i :: at <= i < |s| ==> t[i + 1] == s[i]
    ensures forall i :: at < i <= |s| ==> t[i] == s[i - 1]
  {
    s[..at] + [e] + s[at..]
  }

  lemma InsertedSorted(s: seq<Entry>, at: nat, e: Entry)
    requires Sorted(s) && Splits(s, at, e.client)
    ensures Sorted(Inserted(s, at, e))
  {
  }

  lemma InsertedLookup(s: seq<Entry>, at: nat, e: Entry, key: nat)
    requires Sorted(s) && Splits(s, at, e.client) && Sorted(Inserted(s, at, e))
    ensures var m, n := MapOf(s), MapOf(Inserted(s, at, e));
            (key in n <==> key == e.client || key in m) &&
            (key in n ==> n[key] == if key == e.client then e.cuda else m[key])
  {
    hide MapOf, Sorted, Inserted;
    var t := Inserted(s, at, e);
    FoundAt(t, at);
    if key in MapOf(s) {
      var i := PlaceOf(s, key);
      FoundAt(s, i);
      FoundAt(t, if i < at then i else i + 1);
    }
    if key in MapOf(t) {
      var i := PlaceOf(t, key);
      if i != at {
        FoundAt(s, if i < at then i else i - 1);
      }
    }
  }

  lemma InsertedEntry(s: seq<Entry>, at: nat, e: Entry)
    requires Sorted(s) && Splits(s, at, e.client)
    ensures Sorted(Inserted(s, at, e)) && MapOf(Inserted(s, at, e)) == MapOf(s)[e.client := e.cuda]
  {
    InsertedSorted(s, at, e);
    hide MapOf, Sorted, Splits, Inserted;
    var m, n := MapOf(s), MapOf(Inserted(s, at, e));
    forall key
      ensures key in n <==> key == e.client || key in m
      ensures key in n ==> n[key] == if key == e.client then e.cuda else m[key]
    {
      InsertedLookup(s, at, e, key);
    }
    UpdatedMap(m, n, e.client, e.cuda);
  }

  ghost function Replaced(s: seq<Entry>, at: nat, cuda: nat): (t: seq<Entry>)
    requires at < |s|
    ensures |t| == |s| && forall i :: 0 <= i < |s| ==> t[i] == if i == at then s[i].(cuda := cuda) else s[i]
  {
    s[at := s[at].(cuda := cuda)]
  }

  lemma ReplacedSorted(s: seq<Entry>, at: nat, cuda: nat)
    requires Sorted(s) && at < |s|
    ensures Sorted(Replaced(s, at, cuda))
  {
  }

  lemma ReplacedLookup(s: seq<Entry>, at: nat, cuda: nat, key: nat)
    requires Sorted(s) && at < |s| && Sorted(Replaced(s, at, cuda))
    ensures var m, n := MapOf(s), MapOf(Replaced(s, at, cuda));
            (key in n <==> key in m) && (key in n ==> n[key] == if key == s[at].client then cuda else m[key]) &&
            s[at].client in m
  {
    hide MapOf, Sorted, Replaced;
    var t := Replaced(s, at, cuda);
    FoundAt(s, at);
    FoundAt(t, at);
    if key in MapOf(s) {
      var i := PlaceOf(s, key);
      FoundAt(s, i);
      FoundAt(t, i);
    }
    if key in MapOf(t) {
      var i := PlaceOf(t, key);
      FoundAt(s, i);
    }
  }

  lemma ReplacedEntry(s: seq<Entry>, at: nat, cuda: nat)
    requires Sorted(s) && at < |s|
    ensures Sorted(Replaced(s, at, cuda)) && MapOf(Replaced(s, at, cuda)) == MapOf(s)[s[at].client := cuda]
  {
    ReplacedSorted(s, at, cuda);
    hide MapOf, Sorted, Replaced;
    var m, n := MapOf(s), MapOf(Replaced(s, at, cuda));
    forall key
      ensures key in n <==> key == s[at].client || key in m
      ensures key in n ==> n[key] == if key == s[at].client then cuda else m[key]
    {
      ReplacedLookup(s, at, cuda, key);
    }
    UpdatedMap(m, n, s[at].client, cuda);
  }

  class Manager {
    const bypass: bool
    const mapRes: List<Entry>
    const newRes: List<nat>

    ghost predicate Valid()
      reads this, mapRes, mapRes.elements, newRes, newRes.elements
    {
      mapRes.Valid() && newRes.Valid() && (mapRes as object) != newRes &&
        mapRes.elements as object != newRes.elements &&
      Sorted(mapRes.Contents())
    }

    /** The restored addresses. */
    ghost function View(): map<nat, nat>
      requires Valid()
      reads this, mapRes, mapRes.elements, newRes, newRes.elements
    {
      MapOf(mapRes.Contents())
    }

    /** `resource_mg_init` */
    constructor (bypass: bool)
      ensures Valid() && View() == map[] && this.bypass == bypass
      ensures fresh(mapRes) && fresh(mapRes.elements) && fresh(newRes) && fresh(newRes.elements)
    {
      this.bypass := bypass;
      mapRes := new List<Entry>();
      newRes := new List<nat>();
    }

    /** `resource_mg_create`: remembers an address the client uses as it is. */
    method Create(address: nat)
      requires Valid()
      modifies newRes, newRes.elements
      ensures Valid() && View() == old(View()) && newRes.Contents() == old(newRes.Contents()) + [address]
    {
      newRes.Append(address);
    }

    /** `resource_mg_get` and the binary search it calls */
    method Get(address: nat) returns (r: nat)
      requires Valid()
      ensures r == if bypass then address else Translate(View(), address)
    {
      if bypass || mapRes.length == 0 {
        return address;
      }
      ghost var s := mapRes.Contents();
      var start, end := 0, mapRes.length - 1;
      while end >= start
        invariant 0 <= start <= |s| && 0 <= end < |s|
        invariant forall i :: 0 <= i < start ==> s[i].client < address
        invariant forall i :: end < i < |s| ==> address < s[i].client
      {
        var mid := start + (end - start) / 2;
        var elem := mapRes.elements[mid];
        assert elem == s[mid];
        if elem.client > address {
          // end is unsigned: the code leaves the loop here rather than let it wrap around.
          if mid == 0 {
            assert forall i :: 0 <= i < |s| ==> address < s[i].client;
            return address;
          }
          end := mid - 1;
        } else if elem.client < address {
          start := mid + 1;
        } else {
          FoundAt(s, mid);
          return elem.cuda;
        }
      }
      return address;
    }

    /** The search of `resource_mg_add_sorted`: the place of `client`, or the last one below it (or -1). */
    method Search(client: nat) returns (found: bool, at: int)
      requires Valid()
      ensures found ==> 0 <= at < mapRes.length && mapRes.Contents()[at].client == client
      ensures !found ==> -1 <= at && Splits(mapRes.Contents(), at + 1, client)
    {
      ghost var s := mapRes.Contents();
      var start, end := 0, mapRes.length - 1;
      while end >= start
        invariant 0 <= start <= end + 1 <= |s|
        invariant forall i :: 0 <= i < start ==> s[i].client < client
        invariant forall i :: end < i < |s| ==> client < s[i].client
      {
        var mid := start + (end - start) / 2;
        var elem := mapRes.elements[mid];
        assert elem == s[mid];
        if elem.client > client {
          end := mid - 1;
        } else if elem.client < client {
          start := mid + 1;
        } else {
          return true, mid;
        }
      }
      return false, end;
    }

    /** "Duplicate resource": its new address overwrites the old one. */
    method Overwrite(at: nat, cuda: nat)
      requires Valid() && at < mapRes.length
      modifies mapRes.elements
      ensures Valid() && View() == old(View())[old(mapRes.Contents()[at].client) := cuda]
    {
      ReplacedEntry(mapRes.Contents(), at, cuda);
      mapRes.Set(at, mapRes.elements[at].(cuda := cuda));
    }

    /** `resource_mg_add_sorted`: an address that is there already gets the new value. */
    method AddSorted(client: nat, cuda: nat) returns (r: Attempt<()>)
      requires Valid()
      modifies mapRes, mapRes.elements
      ensures Valid() && r == (if bypass then Failed else Ok(()))
      ensures View() == if bypass then old(View()) else old(View())[client := cuda]
      ensures mapRes.elements == old(mapRes.elements) || fresh(mapRes.elements)
    {
      hide MapOf, Sorted;
      if bypass {
        return Failed;
      }
      ghost var s := mapRes.Contents();
      var found, at := Search(client);
      if found {
        Overwrite(at, cuda);
        return Ok(());
      }
      InsertedEntry(s, at + 1, Entry(client, cuda));
      if mapRes.length == 0 {
        mapRes.Append(Entry(client, cuda));
        assert mapRes.Contents() == Inserted(s, at + 1, Entry(client, cuda));
        return Ok(());
      }
      if at < 0 {
        at := 0;
      }
      var last := mapRes.elements[at];
      assert last == s[at];
      if last.client < client {
        at := at + 1;
      }
      r := mapRes.Insert(at, Entry(client, cuda));
    }
  }
}
