/** The object table of a device: classes of objects, presented as one list. */
module ObjectTable {
  import opened Octets
  import opened Wrappers

  datatype Name = Name(encoding: nat, text: string)

  datatype Member = Member(instance: Word, name: Name)

  /** One row of the table: the object type, its objects in index order, and which functions the row has. */
  datatype ObjectClass = ObjectClass(kind: nat, members: seq<Member>, counted: bool, indexed: bool, named: bool,
                                     writable: bool, creatable: bool, deletable: bool, timed: bool)

  datatype ObjectId = ObjectId(kind: nat, instance: Word)

  type Table = seq<ObjectClass>

  const DEVICE: nat := 8
  const MAX_INSTANCE: Word := 0x3FFFFF

  // ----- the concatenated list -----

  /** An element of the list; it can be found when its row can turn an index into an instance. */
  datatype Element = Element(id: ObjectId, reachable: bool)

  function Size(c: ObjectClass): nat {
    if c.counted then |c.members| else 0
  }

  function ElementOf(c: ObjectClass, i: nat): Element
    requires i < |c.members|
  {
    Element(ObjectId(c.kind, c.members[i].instance), c.indexed)
  }

  function Listed(c: ObjectClass): (list: seq<Element>)
    ensures |list| == Size(c) && forall i :: 0 <= i < |list| ==> list[i] == ElementOf(c, i)
  {
    seq(Size(c), i requires 0 <= i < Size(c) => ElementOf(c, i))
  }

  /** The Object_List of the device: the lists of its classes, one after the other. */
  function ObjectList(t: Table): seq<Element> {
    if t == [] then [] else ObjectList(t[..|t| - 1]) + Listed(t[|t| - 1])
  }

  /** Where a row starts in the list. */
  function Start(t: Table, r: nat): nat
    requires r <= |t|
  {
    |ObjectList(t[..r])|
  }

  lemma NextStart(t: Table, r: nat)
    requires r < |t|
    ensures Start(t, r + 1) == Start(t, r) + Size(t[r])
  {
    var u := t[..r + 1];
    assert u[..|u| - 1] == t[..r] && u[|u| - 1] == t[r];
  }

  /** A row fills the list from its start on. */
  lemma {:induction false} RowAt(t: Table, r: nat, i: nat)
    requires r < |t|
    ensures Start(t, r) + Size(t[r]) <= |ObjectList(t)|
    ensures i < Size(t[r]) ==> ObjectList(t)[Start(t, r) + i] == ElementOf(t[r], i)
    decreases |t|
  {
    var m := |t| - 1;
    if r < m {
      RowAt(t[..m], r, i);
      assert t[..m][..r] == t[..r];
    }
  }

  /** Every element of the list is an object of some counted row. */
  lemma {:induction false} Locate(t: Table, k: nat) returns (r: nat, i: nat)
    requires k < |ObjectList(t)|
    ensures r < |t| && i < Size(t[r]) && k == Start(t, r) + i
    decreases |t|
  {
    var m := |t| - 1;
    if k < |ObjectList(t[..m])| {
      r, i := Locate(t[..m], k);
      assert t[..m][..r] == t[..r];
    } else {
      r, i := m, k - |ObjectList(t[..m])|;
    }
  }

  // ----- lookups -----

  /** `Device_Objects_Find_Functions`: the first row of a type; the row behind the last when there is none. */
  function Row(t: Table, kind: nat): (r: nat)
    ensures r <= |t| && (r < |t| ==> t[r].kind == kind) && forall j :: 0 <= j < r ==> t[j].kind != kind
  {
    if t == [] || t[0].kind == kind then 0 else 1 + Row(t[1..], kind)
  }

  /** The first object of a row with an instance number; the place behind the last when there is none. */
  function Place(members: seq<Member>, instance: Word): (p: nat)
    ensures p <= |members| && (p < |members| ==> members[p].instance == instance)
    ensures forall j :: 0 <= j < p ==> members[j].instance != instance
  {
    if members == [] || members[0].instance == instance then 0 else 1 + Place(members[1..], instance)
  }

  predicate Exists(t: Table, kind: nat, instance: Word) {
    var r := Row(t, kind);
    r < |t| && Place(t[r].members, instance) < |t[r].members|
  }

  /** The name the device finds for an object. */
  function NameOf(t: Table, id: ObjectId): Option<Name> {
    var r := Row(t, id.kind);
    if r < |t| && t[r].named then
      var p := Place(t[r].members, id.instance);
      if p < |t[r].members| then Some(t[r].members[p].name) else None
    else None
  }

  /** Element `k` of the list is found and has this name. */
  predicate Carries(t: Table, k: nat, name: Name) {
    k < |ObjectList(t)| && ObjectList(t)[k].reachable && NameOf(t, ObjectList(t)[k].id) == Some(name)
  }

  // ----- well-formed tables -----

  predicate InTable(t: Table, r: int, i: int) {
    0 <= r < |t| && 0 <= i < |t[r].members|
  }

  /** What the tables of the devices look like: one row a type, instance numbers distinct within a row,
      every row counted, indexed and named, and the one Device object can be neither created nor deleted. */
  ghost predicate WellFormed(t: Table) {
    && (forall r, s :: 0 <= r < s < |t| ==> t[r].kind != t[s].kind)
    && (forall r :: 0 <= r < |t| ==> RowOk(t[r]))
  }

  ghost predicate RowOk(c: ObjectClass) {
    && c.counted && c.indexed && c.named
    && (c.kind == DEVICE ==> |c.members| == 1 && !c.creatable && !c.deletable)
    && InstancesDiffer(c.members)
  }

  ghost predicate InstancesDiffer(members: seq<Member>) {
    forall i, j :: 0 <= i < j < |members| ==> members[i].instance != members[j].instance
  }

  /** No two objects of the device have the same name. */
  ghost predicate NamesDiffer(t: Table) {
    forall r, i, s, j {:trigger t[r].members[i], t[s].members[j]} ::
      InTable(t, r, i) && InTable(t, s, j) && t[r].members[i].name == t[s].members[j].name ==> r == s && i == j
  }

  ghost predicate NameUsed(t: Table, name: Name) {
    exists r, i :: InTable(t, r, i) && t[r].members[i].name == name
  }

  lemma RowIs(t: Table, r: nat)
    requires WellFormed(t) && r < |t|
    ensures Row(t, t[r].kind) == r
  {
    var q := Row(t, t[r].kind);
  }

  lemma PlaceIs(members: seq<Member>, i: nat)
    requires InstancesDiffer(members) && i < |members|
    ensures Place(members, members[i].instance) == i
  {
    var p := Place(members, members[i].instance);
  }

  lemma NameFound(t: Table, r: nat, i: nat)
    requires WellFormed(t) && InTable(t, r, i)
    ensures NameOf(t, ObjectId(t[r].kind, t[r].members[i].instance)) == Some(t[r].members[i].name)
    ensures t[r].counted && t[r].indexed
  {
    assert RowOk(t[r]);
    RowIs(t, r);
    PlaceIs(t[r].members, i);
  }

  /** Object `i` of row `r` is in the list, under its own name. */
  lemma IsListed(t: Table, r: nat, i: nat) returns (k: nat)
    requires WellFormed(t) && InTable(t, r, i)
    ensures k < |ObjectList(t)| && ObjectList(t)[k].id == ObjectId(t[r].kind, t[r].members[i].instance)
    ensures Carries(t, k, t[r].members[i].name)
  {
    NameFound(t, r, i);
    RowAt(t, r, i);
    k := Start(t, r) + i;
  }

  /** Element `k` of the list is object `i` of row `r`, and the lookup finds its name. */
  lemma IsObject(t: Table, k: nat) returns (r: nat, i: nat)
    requires WellFormed(t) && k < |ObjectList(t)|
    ensures InTable(t, r, i) && ObjectList(t)[k].id == ObjectId(t[r].kind, t[r].members[i].instance)
    ensures NameOf(t, ObjectList(t)[k].id) == Some(t[r].members[i].name)
  {
    r, i := Locate(t, k);
    RowAt(t, r, i);
    NameFound(t, r, i);
  }

  /** The name lookup succeeds exactly for the names in use. */
  lemma NameIsUsed(t: Table, name: Name)
    requires WellFormed(t)
    ensures (exists k :: Carries(t, k, name)) <==> NameUsed(t, name)
  {
    if k :| Carries(t, k, name) {
      var r, i := IsObject(t, k);
      assert InTable(t, r, i) && t[r].members[i].name == name;
    }
    if NameUsed(t, name) {
      var r, i :| InTable(t, r, i) && t[r].members[i].name == name;
      var k := IsListed(t, r, i);
    }
  }

  /** With distinct names the object found is the one that has the name. */
  lemma CarrierIs(t: Table, k: nat, r: nat, i: nat)
    requires WellFormed(t) && NamesDiffer(t) && InTable(t, r, i) && Carries(t, k, t[r].members[i].name)
    ensures ObjectList(t)[k].id == ObjectId(t[r].kind, t[r].members[i].instance)
  {
    var n, j := IsObject(t, k);
    assert t[n].members[j].name == t[r].members[i].name;
  }
}
