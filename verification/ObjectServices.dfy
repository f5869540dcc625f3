/** What the object services do to the object table, and that object names stay unique. */
module ObjectServices {
  import opened Octets
  import opened Wrappers
  import opened ObjectTable

  /** The value of a name write as it decodes. */
  datatype Decoded = Text(name: Name, printable: bool) | WrongType | Malformed

  /** The value of an identifier write as it decodes. */
  datatype Identifier = Identifier(kind: nat, instance: Word) | OtherType | Undecodable

  /** What a row's create function answers: nothing, or an object at some place of its index order with
      its default name. */
  datatype Made = NoSpace | Made(instance: Word, place: nat, name: Name)

  /** A request, with the answers of the row functions it may come to: whether the object takes the
      name, what is made, whether the object lets itself be deleted. */
  datatype Request =
    | WriteName(kind: nat, instance: Word, value: Decoded, accepts: bool)
    | WriteDeviceId(instance: Word, identifier: Identifier)
    | Create(kind: nat, wanted: Word, initialValues: bool, made: Made)
    | Delete(kind: nat, instance: Word, permits: bool)

  /** CHARACTER_ANSI_X34. */
  const ANSI: nat := 0

  predicate Acceptable(v: Decoded) {
    v.Text? && v.name.encoding == ANSI && v.name.text != "" && v.printable
  }

  /** The first element of the list, from `k` on, that carries the name; the length of the list if none does. */
  function HolderFrom(t: Table, name: Name, k: nat): (h: nat)
    requires k <= |ObjectList(t)|
    ensures h <= |ObjectList(t)| && (h < |ObjectList(t)| ==> k <= h && Carries(t, h, name))
    ensures forall j :: k <= j < h ==> !Carries(t, j, name)
    decreases |ObjectList(t)| - k
  {
    if k == |ObjectList(t)| || Carries(t, k, name) then k else HolderFrom(t, name, k + 1)
  }

  /** The name may be given to this object: nothing has it, or the first thing found is the object itself. */
  predicate MayTake(t: Table, id: ObjectId, name: Name) {
    var h := HolderFrom(t, name, 0);
    h < |ObjectList(t)| ==> ObjectList(t)[h].id == id
  }

  predicate Renames(t: Table, q: Request) {
    && q.WriteName? && Exists(t, q.kind, q.instance) && t[Row(t, q.kind)].writable && Acceptable(q.value)
    && MayTake(t, ObjectId(q.kind, q.instance), q.value.name) && q.accepts
  }

  predicate Reidentifies(t: Table, q: Request) {
    && q.WriteDeviceId? && Exists(t, DEVICE, q.instance) && t[Row(t, DEVICE)].writable
    && q.identifier.Identifier? && q.identifier.kind == DEVICE && q.identifier.instance <= MAX_INSTANCE
  }

  predicate Creates(t: Table, q: Request) {
    && q.Create? && Row(t, q.kind) < |t| && t[Row(t, q.kind)].creatable
    && Place(t[Row(t, q.kind)].members, q.wanted) == |t[Row(t, q.kind)].members| && !q.initialValues
    && q.made.Made? && q.made.instance != MAX_INSTANCE && q.made.place <= |t[Row(t, q.kind)].members|
  }

  predicate Deletes(t: Table, q: Request) {
    q.Delete? && Exists(t, q.kind, q.instance) && t[Row(t, q.kind)].deletable && q.permits
  }

  function WithMembers(t: Table, r: nat, members: seq<Member>): Table
    requires r < |t|
  {
    t[r := t[r].(members := members)]
  }

  /** The table after a request; a refused request changes nothing. */
  function Serve(t: Table, q: Request): Table {
    if Renames(t, q) then
      var r := Row(t, q.kind);
      var p := Place(t[r].members, q.instance);
      WithMembers(t, r, t[r].members[p := Member(q.instance, q.value.name)])
    else if Reidentifies(t, q) then
      var r := Row(t, DEVICE);
      var p := Place(t[r].members, q.instance);
      WithMembers(t, r, t[r].members[p := t[r].members[p].(instance := q.identifier.instance)])
    else if Creates(t, q) then
      var r := Row(t, q.kind);
      var m := t[r].members;
      WithMembers(t, r, m[..q.made.place] + [Member(q.made.instance, q.made.name)] + m[q.made.place..])
    else if Deletes(t, q) then
      var r := Row(t, q.kind);
      var m := t[r].members;
      var p := Place(m, q.instance);
      WithMembers(t, r, m[..p] + m[p + 1..])
    else t
  }

  function ServeAll(t: Table, qs: seq<Request>): Table
    decreases |qs|
  {
    if qs == [] then t else ServeAll(Serve(t, qs[0]), qs[1..])
  }

  /** A create function keeps its instance numbers apart. */
  ghost predicate Honest(t: Table, q: Request) {
    Creates(t, q) ==> Place(t[Row(t, q.kind)].members, q.made.instance) == |t[Row(t, q.kind)].members|
  }

  /** The default name of a created object is not in use. */
  ghost predicate DefaultUnused(t: Table, q: Request) {
    Creates(t, q) ==> !NameUsed(t, q.made.name)
  }

  // ----- one row changed -----

  /** The names of row `r` differ from each other and from those of the other rows. */
  ghost predicate NamesFit(t: Table, r: nat, members: seq<Member>)
    requires r < |t|
  {
    && (forall i, j :: 0 <= i < j < |members| ==> members[i].name != members[j].name)
    && (forall i :: 0 <= i < |members| ==> NameFree(t, r, members[i].name))
  }

  /** No row but `r` uses the name. */
  ghost predicate NameFree(t: Table, r: nat, name: Name) {
    forall s, j {:trigger t[s].members[j]} :: InTable(t, s, j) && s != r ==> t[s].members[j].name != name
  }

  lemma TwoNames(t: Table, r: nat, members: seq<Member>, a: nat, i: nat, b: nat, j: nat)
    requires r < |t| && NamesDiffer(t) && NamesFit(t, r, members)
    requires InTable(WithMembers(t, r, members), a, i) && InTable(WithMembers(t, r, members), b, j)
    requires a != b || i < j
    ensures WithMembers(t, r, members)[a].members[i].name != WithMembers(t, r, members)[b].members[j].name
  {
    if a != r && b != r {
      assert t[a].members[i].name != t[b].members[j].name;
    } else if a != r {
      assert NameFree(t, r, members[j].name) && InTable(t, a, i);
      assert t[a].members[i].name != members[j].name;
    } else if b != r {
      assert NameFree(t, r, members[i].name) && InTable(t, b, j);
      assert t[b].members[j].name != members[i].name;
    }
  }

  lemma RowChanged(t: Table, r: nat, members: seq<Member>)
    requires r < |t| && WellFormed(t) && NamesDiffer(t) && NamesFit(t, r, members)
    requires RowOk(t[r].(members := members))
    ensures WellFormed(WithMembers(t, r, members)) && NamesDiffer(WithMembers(t, r, members))
  {
    var u := WithMembers(t, r, members);
    forall a, i, b, j | InTable(u, a, i) && InTable(u, b, j)
      ensures u[a].members[i].name == u[b].members[j].name ==> a == b && i == j
    {
      if a != b || i < j {
        TwoNames(t, r, members, a, i, b, j);
      } else if j < i {
        TwoNames(t, r, members, b, j, a, i);
      }
    }
  }

  /** The names a well-formed row already has fit. */
  lemma OwnNamesFit(t: Table, r: nat)
    requires r < |t| && NamesDiffer(t)
    ensures NamesFit(t, r, t[r].members)
  {
    var m := t[r].members;
    forall i, j | 0 <= i < j < |m| ensures m[i].name != m[j].name {
      assert InTable(t, r, i) && InTable(t, r, j);
    }
    forall i | 0 <= i < |m| ensures NameFree(t, r, m[i].name) {
      assert InTable(t, r, i);
    }
  }

  lemma UnusedIsFree(t: Table, r: nat, name: Name)
    requires r < |t| && !NameUsed(t, name)
    ensures NameFree(t, r, name) && forall i :: 0 <= i < |t[r].members| ==> t[r].members[i].name != name
  {
    forall i | 0 <= i < |t[r].members| ensures t[r].members[i].name != name {
      assert InTable(t, r, i);
    }
  }

  // ----- each request -----

  /** A name that an object may take is its own already or is not in use. */
  lemma MayTakeMeans(t: Table, r: nat, p: nat, name: Name)
    requires WellFormed(t) && NamesDiffer(t) && InTable(t, r, p)
    ensures MayTake(t, ObjectId(t[r].kind, t[r].members[p].instance), name)
            <==> !NameUsed(t, name) || t[r].members[p].name == name
  {
    var h := HolderFrom(t, name, 0);
    var id := ObjectId(t[r].kind, t[r].members[p].instance);
    NameIsUsed(t, name);
    if h < |ObjectList(t)| {
      assert Carries(t, h, name);
      NameFound(t, r, p);
      if t[r].members[p].name == name {
        CarrierIs(t, h, r, p);
      }
    }
  }

  lemma RenameKeeps(t: Table, q: Request)
    requires WellFormed(t) && NamesDiffer(t) && Renames(t, q)
    ensures WellFormed(Serve(t, q)) && NamesDiffer(Serve(t, q))
  {
    var r := Row(t, q.kind);
    var m := t[r].members;
    var p := Place(m, q.instance);
    assert RowOk(t[r]) && InTable(t, r, p);
    MayTakeMeans(t, r, p, q.value.name);
    OwnNamesFit(t, r);
    if m[p].name != q.value.name { UnusedIsFree(t, r, q.value.name); }
    RowChanged(t, r, m[p := Member(q.instance, q.value.name)]);
  }

  lemma ReidentifyKeeps(t: Table, q: Request)
    requires WellFormed(t) && NamesDiffer(t) && Reidentifies(t, q)
    ensures WellFormed(Serve(t, q)) && NamesDiffer(Serve(t, q))
  {
    var r := Row(t, DEVICE);
    var p := Place(t[r].members, q.instance);
    assert RowOk(t[r]);
    OwnNamesFit(t, r);
    RowChanged(t, r, t[r].members[p := t[r].members[p].(instance := q.identifier.instance)]);
  }

  lemma FewerFit(t: Table, r: nat, p: nat)
    requires r < |t| && p < |t[r].members| && InstancesDiffer(t[r].members) && NamesFit(t, r, t[r].members)
    ensures var n := t[r].members[..p] + t[r].members[p + 1..]; InstancesDiffer(n) && NamesFit(t, r, n)
  {
    var m := t[r].members;
    var n := m[..p] + m[p + 1..];
    forall i, j | 0 <= i < j < |n| ensures n[i].instance != n[j].instance && n[i].name != n[j].name {
      assert n[i] == m[if i < p then i else i + 1] && n[j] == m[if j < p then j else j + 1];
    }
    forall i | 0 <= i < |n| ensures NameFree(t, r, n[i].name) {
      assert n[i] == m[if i < p then i else i + 1];
    }
  }

  lemma DeleteKeeps(t: Table, q: Request)
    requires WellFormed(t) && NamesDiffer(t) && Deletes(t, q)
    ensures WellFormed(Serve(t, q)) && NamesDiffer(Serve(t, q))
  {
    var r := Row(t, q.kind);
    var p := Place(t[r].members, q.instance);
    assert RowOk(t[r]);
    OwnNamesFit(t, r);
    FewerFit(t, r, p);
    RowChanged(t, r, t[r].members[..p] + t[r].members[p + 1..]);
  }

  lemma CreateOk(t: Table, q: Request)
    requires WellFormed(t) && NamesDiffer(t) && Creates(t, q) && Honest(t, q) && DefaultUnused(t, q)
    ensures WellFormed(Serve(t, q)) && NamesDiffer(Serve(t, q))
  {
    var r := Row(t, q.kind);
    var m := t[r].members;
    var made := q.made;
    assert RowOk(t[r]);
    OwnNamesFit(t, r);
    UnusedIsFree(t, r, made.name);
    RowChanged(t, r, m[..made.place] + [Member(made.instance, made.name)] + m[made.place..]);
  }

  /** Creating an object keeps the names distinct if and only if its default name was not in use:
      nothing in the device tests it. */
  lemma CreateKeepsNames(t: Table, q: Request)
    requires WellFormed(t) && NamesDiffer(t) && Creates(t, q) && Honest(t, q)
    ensures NamesDiffer(Serve(t, q)) <==> !NameUsed(t, q.made.name)
  {
    if NameUsed(t, q.made.name) {
      var s, j :| InTable(t, s, j) && t[s].members[j].name == q.made.name;
      var r, at, u := Row(t, q.kind), q.made.place, Serve(t, q);
      var j' := if s == r && j >= at then j + 1 else j;
      assert InTable(u, r, at) && u[r].members[at].name == q.made.name;
      assert InTable(u, s, j') && u[s].members[j'].name == q.made.name;
    } else {
      CreateOk(t, q);
    }
  }

  lemma ServeKeepsNames(t: Table, q: Request)
    requires WellFormed(t) && NamesDiffer(t) && Honest(t, q) && DefaultUnused(t, q)
    ensures WellFormed(Serve(t, q)) && NamesDiffer(Serve(t, q))
  {
    if Renames(t, q) { RenameKeeps(t, q); }
    else if Reidentifies(t, q) { ReidentifyKeeps(t, q); }
    else if Creates(t, q) { CreateOk(t, q); }
    else if Deletes(t, q) { DeleteKeeps(t, q); }
  }

  // ----- what a request does to the names, object by object -----

  /** The object a request makes, renames or deletes, before and after it. */
  predicate Touches(q: Request, id: ObjectId) {
    match q
    case WriteName(kind, instance, _, _) => id == ObjectId(kind, instance)
    case WriteDeviceId(instance, identifier) =>
      id == ObjectId(DEVICE, instance) || (identifier.Identifier? && id == ObjectId(DEVICE, identifier.instance))
    case Create(kind, _, _, made) => made.Made? && id == ObjectId(kind, made.instance)
    case Delete(kind, instance, _) => id == ObjectId(kind, instance)
  }

  function NameIn(members: seq<Member>, instance: Word): Option<Name> {
    var p := Place(members, instance);
    if p < |members| then Some(members[p].name) else None
  }

  lemma NameAt(members: seq<Member>, i: nat)
    requires InstancesDiffer(members) && i < |members|
    ensures NameIn(members, members[i].instance) == Some(members[i].name)
  {
    PlaceIs(members, i);
  }

  /** Two rows that hold the same object under an instance number, or both none, name it alike. */
  lemma SameName(m: seq<Member>, n: seq<Member>, x: Word)
    requires InstancesDiffer(m) && InstancesDiffer(n)
    requires forall c: Member :: c.instance == x ==> (c in m <==> c in n)
    ensures NameIn(m, x) == NameIn(n, x)
  {
    var p, q := Place(m, x), Place(n, x);
    assert q < |n| ==> n[q].instance == x && n[q] in n;
    if p < |m| {
      assert m[p] in n;
      var j: nat :| j < |n| && n[j] == m[p];
      NameAt(n, j);
    }
  }

  lemma NameInRow(t: Table, r: nat, members: seq<Member>, id: ObjectId)
    requires r < |t| && WellFormed(t) && WellFormed(WithMembers(t, r, members))
    ensures NameOf(WithMembers(t, r, members), id)
            == if id.kind == t[r].kind then NameIn(members, id.instance) else NameOf(t, id)
  {
    var u := WithMembers(t, r, members);
    var a, b := Row(t, id.kind), Row(u, id.kind);
    if a < |t| { RowIs(u, a); assert RowOk(u[a]); }
    if b < |u| { RowIs(t, b); }
    RowIs(t, r);
  }

  lemma ReplacedOne(m: seq<Member>, p: nat, c: Member, d: Member)
    requires p < |m| && d.instance != m[p].instance && d.instance != c.instance
    ensures d in m <==> d in m[p := c]
  {
    if d in m {
      var i: nat :| i < |m| && m[i] == d;
      assert m[p := c][i] == d;
    }
  }

  /** Everything a request does is in one row, and there to its own object only. */
  lemma ServeIsLocal(t: Table, q: Request, x: Word) returns (r: nat, members: seq<Member>)
    requires WellFormed(t) && (Renames(t, q) || Reidentifies(t, q) || Creates(t, q) || Deletes(t, q))
    ensures r == Row(t, if q.WriteDeviceId? then DEVICE else q.kind) < |t| && Serve(t, q) == WithMembers(t, r, members)
    ensures !Touches(q, ObjectId(t[r].kind, x)) ==>
              forall c: Member :: c.instance == x ==> (c in t[r].members <==> c in members)
  {
    r := Row(t, if q.WriteDeviceId? then DEVICE else q.kind);
    var m := t[r].members;
    members := Serve(t, q)[r].members;
    var p := if q.Create? then 0 else Place(m, q.instance);
    if q.WriteName? {
      forall c: Member | c.instance == x && x != q.instance ensures c in m <==> c in members {
        ReplacedOne(m, p, Member(q.instance, q.value.name), c);
      }
    } else if q.WriteDeviceId? {
      forall c: Member | c.instance == x && x != q.instance && x != q.identifier.instance
        ensures c in m <==> c in members
      {
        ReplacedOne(m, p, m[p].(instance := q.identifier.instance), c);
      }
    } else if q.Delete? {
      assert m == m[..p] + [m[p]] + m[p + 1..];
    } else {
      assert m == m[..q.made.place] + m[q.made.place..];
    }
  }

  /** A request touches only the name of its own object: every other keeps the name it has, or stays away. */
  lemma OthersKeepNames(t: Table, q: Request, id: ObjectId)
    requires WellFormed(t) && NamesDiffer(t) && Honest(t, q) && DefaultUnused(t, q) && !Touches(q, id)
    ensures NameOf(Serve(t, q), id) == NameOf(t, id)
  {
    ServeKeepsNames(t, q);
    if Renames(t, q) || Reidentifies(t, q) || Creates(t, q) || Deletes(t, q) {
      var r, members := ServeIsLocal(t, q, id.instance);
      KeptInRow(t, r, members, id);
    }
  }

  lemma KeptInRow(t: Table, r: nat, members: seq<Member>, id: ObjectId)
    requires r < |t| && WellFormed(t) && WellFormed(WithMembers(t, r, members))
    requires id.kind == t[r].kind ==>
              forall c: Member :: c.instance == id.instance ==> (c in t[r].members <==> c in members)
    ensures NameOf(WithMembers(t, r, members), id) == NameOf(t, id)
  {
    assert RowOk(t[r]) && RowOk(WithMembers(t, r, members)[r]);
    NameInRow(t, r, members, id);
    NameInRow(t, r, t[r].members, id);
    assert WithMembers(t, r, t[r].members) == t;
    if id.kind == t[r].kind {
      SameName(t[r].members, members, id.instance);
    }
  }

  lemma RenamedIs(t: Table, q: Request)
    requires WellFormed(t) && WellFormed(Serve(t, q)) && Renames(t, q)
    ensures NameOf(Serve(t, q), ObjectId(q.kind, q.instance)) == Some(q.value.name)
  {
    var r := Row(t, q.kind);
    var p := Place(t[r].members, q.instance);
    var members := t[r].members[p := Member(q.instance, q.value.name)];
    assert RowOk(Serve(t, q)[r]);
    NameAt(members, p);
    NameInRow(t, r, members, ObjectId(q.kind, q.instance));
  }

  lemma ReidentifiedIs(t: Table, q: Request)
    requires WellFormed(t) && WellFormed(Serve(t, q)) && Reidentifies(t, q)
    ensures NameOf(Serve(t, q), ObjectId(DEVICE, q.identifier.instance)) == NameOf(t, ObjectId(DEVICE, q.instance))
  {
    var r := Row(t, DEVICE);
    var p := Place(t[r].members, q.instance);
    var members := t[r].members[p := t[r].members[p].(instance := q.identifier.instance)];
    assert RowOk(t[r]) && RowOk(Serve(t, q)[r]);
    NameAt(members, p);
    NameInRow(t, r, members, ObjectId(DEVICE, q.identifier.instance));
    NameFound(t, r, p);
  }

  lemma CreatedIs(t: Table, q: Request)
    requires WellFormed(t) && WellFormed(Serve(t, q)) && Creates(t, q)
    ensures NameOf(Serve(t, q), ObjectId(q.kind, q.made.instance)) == Some(q.made.name)
  {
    var r, at := Row(t, q.kind), q.made.place;
    var members := t[r].members[..at] + [Member(q.made.instance, q.made.name)] + t[r].members[at..];
    assert RowOk(Serve(t, q)[r]) && members[at] == Member(q.made.instance, q.made.name);
    NameAt(members, at);
    NameInRow(t, r, members, ObjectId(q.kind, q.made.instance));
  }

  lemma DeletedIs(t: Table, q: Request)
    requires WellFormed(t) && WellFormed(Serve(t, q)) && Deletes(t, q)
    ensures NameOf(Serve(t, q), ObjectId(q.kind, q.instance)) == None
  {
    var r := Row(t, q.kind);
    var p := Place(t[r].members, q.instance);
    assert RowOk(t[r]);
    Gone(t[r].members, q.instance);
    NameInRow(t, r, t[r].members[..p] + t[r].members[p + 1..], ObjectId(q.kind, q.instance));
  }

  /** And its own object has the name given, keeps its name under the new number, has its default name, or is gone. */
  lemma OwnNameIs(t: Table, q: Request)
    requires WellFormed(t) && NamesDiffer(t) && Honest(t, q) && DefaultUnused(t, q)
    ensures Renames(t, q) ==> NameOf(Serve(t, q), ObjectId(q.kind, q.instance)) == Some(q.value.name)
    ensures Reidentifies(t, q) ==>
              NameOf(Serve(t, q), ObjectId(DEVICE, q.identifier.instance)) == NameOf(t, ObjectId(DEVICE, q.instance))
    ensures Creates(t, q) ==> NameOf(Serve(t, q), ObjectId(q.kind, q.made.instance)) == Some(q.made.name)
    ensures Deletes(t, q) ==> NameOf(Serve(t, q), ObjectId(q.kind, q.instance)) == None
  {
    ServeKeepsNames(t, q);
    if Renames(t, q) { RenamedIs(t, q); }
    if Reidentifies(t, q) { ReidentifiedIs(t, q); }
    if Creates(t, q) { CreatedIs(t, q); }
    if Deletes(t, q) { DeletedIs(t, q); }
  }

  /** The row a request is about. */
  function RowOf(t: Table, q: Request): nat {
    Row(t, match q
           case WriteName(kind, _, _, _) => kind
           case WriteDeviceId(_, _) => DEVICE
           case Create(kind, _, _, _) => kind
           case Delete(kind, _, _) => kind)
  }

  /** A request changes the objects of its own row only; the functions of the rows stay, and a request that is
      refused changes nothing. */
  lemma OtherRowsStay(t: Table, q: Request, r: nat)
    requires r < |t|
    ensures |Serve(t, q)| == |t| && Serve(t, q)[r].(members := t[r].members) == t[r]
    ensures r != RowOf(t, q) || !(Renames(t, q) || Reidentifies(t, q) || Creates(t, q) || Deletes(t, q)) ==>
              Serve(t, q)[r] == t[r]
  {
  }

  /** And there one object: it is renamed, or gets its new number, or is added, or is taken away. */
  lemma OneObjectChanges(t: Table, q: Request) returns (x: Member)
    requires Renames(t, q) || Reidentifies(t, q) || Creates(t, q) || Deletes(t, q)
    ensures var r := RowOf(t, q);
            && r < |t| == |Serve(t, q)|
            && var m, n := multiset(t[r].members), multiset(Serve(t, q)[r].members);
               match q
               case WriteName(_, instance, value, _) =>
                 x in m && x.instance == instance && n + multiset{x} == m + multiset{Member(instance, value.name)}
               case WriteDeviceId(instance, identifier) =>
                 && x in m && x.instance == instance
                 && n + multiset{x} == m + multiset{Member(identifier.instance, x.name)}
               case Create(_, _, _, made) => n == m + multiset{Member(made.instance, made.name)}
               case Delete(_, instance, _) => x in m && x.instance == instance && n + multiset{x} == m
  {
    var m := t[RowOf(t, q)].members;
    match q
    case WriteName(_, instance, value, _) =>
      x := m[Place(m, instance)];
      Replaced(m, Place(m, instance), Member(instance, value.name));
    case WriteDeviceId(instance, identifier) =>
      x := m[Place(m, instance)];
      Replaced(m, Place(m, instance), Member(identifier.instance, x.name));
    case Create(_, _, _, made) =>
      x := Member(made.instance, made.name);
      Inserted(m, made.place, x);
    case Delete(_, instance, _) =>
      x := m[Place(m, instance)];
      Removed(m, Place(m, instance));
  }

  lemma Replaced(m: seq<Member>, p: nat, x: Member)
    requires p < |m|
    ensures m[p] in m && multiset(m[p := x]) + multiset{m[p]} == multiset(m) + multiset{x}
  {
  }

  lemma Inserted(m: seq<Member>, p: nat, x: Member)
    requires p <= |m|
    ensures multiset(m[..p] + [x] + m[p..]) == multiset(m) + multiset{x}
  {
    assert m == m[..p] + m[p..];
  }

  lemma Removed(m: seq<Member>, p: nat)
    requires p < |m|
    ensures m[p] in m && multiset(m[..p] + m[p + 1..]) + multiset{m[p]} == multiset(m)
  {
    assert m == m[..p] + [m[p]] + m[p + 1..];
  }

  lemma Gone(m: seq<Member>, x: Word)
    requires InstancesDiffer(m) && Place(m, x) < |m|
    ensures NameIn(m[..Place(m, x)] + m[Place(m, x) + 1..], x) == None
  {
    var p := Place(m, x);
    var n := m[..p] + m[p + 1..];
    forall i | 0 <= i < |n| ensures n[i].instance != x {
      assert n[i] == m[if i < p then i else i + 1];
    }
  }

  // ----- runs -----

  /** Every create of the run is honest and makes an object whose default name is then not in use. */
  ghost predicate Orderly(t: Table, qs: seq<Request>)
    decreases |qs|
  {
    qs != [] ==> Honest(t, qs[0]) && DefaultUnused(t, qs[0]) && Orderly(Serve(t, qs[0]), qs[1..])
  }

  /** Over any run of requests the names of the device's objects stay distinct. */
  lemma {:induction false} NamesStayDistinct(t: Table, qs: seq<Request>)
    requires WellFormed(t) && NamesDiffer(t) && Orderly(t, qs)
    ensures WellFormed(ServeAll(t, qs)) && NamesDiffer(ServeAll(t, qs))
    decreases |qs|
  {
    if qs != [] {
      ServeKeepsNames(t, qs[0]);
      NamesStayDistinct(Serve(t, qs[0]), qs[1..]);
    }
  }

  const CHANNEL: nat := 53
  const CHANNEL_2: Name := Name(ANSI, "CHANNEL-2")

  const BLINKT_DEVICE: ObjectClass :=
    ObjectClass(DEVICE, [Member(260001, Name(ANSI, "Blinkt! Server"))], true, true, true, true, false, false, false)
  const NO_CHANNELS: ObjectClass := ObjectClass(CHANNEL, [], true, true, true, true, true, true, false)

  /** The condition on creates is needed: name the device as the next channel will be called, then
      create that channel, and two objects have one name. */
  lemma DefaultNameCollides(q1: Request, q2: Request)
    requires q1 == WriteName(DEVICE, 260001, Text(CHANNEL_2, true), true)
    requires q2 == Create(CHANNEL, 2, false, Made(2, 0, CHANNEL_2))
    ensures WellFormed([BLINKT_DEVICE, NO_CHANNELS]) && NamesDiffer([BLINKT_DEVICE, NO_CHANNELS])
    ensures !NamesDiffer(Serve(Serve([BLINKT_DEVICE, NO_CHANNELS], q1), q2))
  {
    var t := [BLINKT_DEVICE, NO_CHANNELS];
    assert WellFormed(t) by { assert RowOk(BLINKT_DEVICE) && RowOk(NO_CHANNELS); }
    assert NamesDiffer(t);
    RowIs(t, 0);
    RowIs(t, 1);
    PlaceIs(BLINKT_DEVICE.members, 0);
    assert !NameUsed(t, CHANNEL_2);
    MayTakeMeans(t, 0, 0, CHANNEL_2);
    assert Renames(t, q1);
    RenameKeeps(t, q1);
    var u := Serve(t, q1);
    assert Row(t, DEVICE) == 0 && Place(BLINKT_DEVICE.members, 260001) == 0;
    assert BLINKT_DEVICE.members[0 := Member(260001, CHANNEL_2)] == [Member(260001, CHANNEL_2)];
    assert u == [BLINKT_DEVICE.(members := [Member(260001, CHANNEL_2)]), NO_CHANNELS];
    RowIs(u, 1);
    assert Creates(u, q2) && Honest(u, q2);
    assert InTable(u, 0, 0);
    CreateKeepsNames(u, q2);
  }
}
