/** The device object of `blinkt` and `piface`: its loops over the object table, with the table in place. */
module DeviceObject {
  import opened Octets
  import opened ObjectTable
  import opened ObjectServices

  /** The errors of the requests modelled; `OwnError` is what a row's own write function sets. */
  datatype Error = NoError | CharacterSetNotSupported | NoSpaceToWrite | OwnError
                 | UnknownObject | WriteAccessDenied | ValueOutOfRange | InvalidDataType | DuplicateName
                 | NotCreatable | AlreadyExists | NoSpaceForObject | UnsupportedType | NotDeletable

  /** MAX_BITSTRING_BYTES * 8. */
  const BITS: nat := 120

  /** The object is there and its row has a write function. */
  predicate Writable(t: Table, q: Request)
    requires q.WriteName? || q.WriteDeviceId?
  {
    var kind := if q.WriteName? then q.kind else DEVICE;
    Exists(t, kind, q.instance) && t[Row(t, kind)].writable
  }

  /** The type is known and its row has a create function. */
  predicate Creatable(t: Table, q: Request)
    requires q.Create?
  {
    Row(t, q.kind) < |t| && t[Row(t, q.kind)].creatable
  }

  /** The type is known and its row has a delete function. */
  predicate Deletable(t: Table, q: Request)
    requires q.Delete?
  {
    Row(t, q.kind) < |t| && t[Row(t, q.kind)].deletable
  }

  /** A 32-bit revision, counted up when something changed. */
  function Bumped(revision: Word, changed: bool): Word {
    if changed then (revision + 1) % WORD else revision
  }

  class Device {
    var table: Table
    /** Database_Revision. */
    var revision: Word

    constructor (table: Table)
      ensures this.table == table && revision == 0
    {
      this.table, revision := table, 0;
    }

    /** `Device_Objects_Find_Functions`. */
    method FindFunctions(kind: nat) returns (r: nat)
      ensures r == Row(table, kind)
    {
      r := 0;
      while r < |table|
        invariant r <= |table| && Row(table, kind) == r + Row(table[r..], kind)
      {
        if table[r].kind == kind {
          return;
        }
        r := r + 1;
      }
    }

    /** `Device_Object_List_Count`, in 32 bits. */
    method ObjectListCount() returns (count: Word)
      ensures count == |ObjectList(table)| % WORD
    {
      count := 0;
      for r := 0 to |table|
        invariant count == Start(table, r) % WORD
      {
        NextStart(table, r);
        if table[r].counted {
          AddWraps(Start(table, r), |table[r].members|);
          count := (count + |table[r].members|) % WORD;
        }
      }
      assert table[..|table|] == table;
    }

    /** `Device_Object_List_Identifier`: walking the rows with 32-bit subtraction, which may wrap below zero
        behind a row without an index function, finds exactly the elements of the concatenated list that
        lie in rows with one. */
    method ObjectListIdentifier(arrayIndex: Word) returns (found: bool, id: ObjectId)
      requires |ObjectList(table)| < WORD
      ensures found <==> 1 <= arrayIndex <= |ObjectList(table)| && ObjectList(table)[arrayIndex - 1].reachable
      ensures found ==> id == ObjectList(table)[arrayIndex - 1].id
    {
      found, id := false, ObjectId(0, 0);
      if arrayIndex == 0 {
        return;
      }
      ghost var starts := Starts(table);
      found, id := Walk(arrayIndex - 1, starts, ObjectList(table));
    }

    /** The walk over the rows, against where each row starts in the list. */
    method Walk(wanted: Word, ghost starts: seq<nat>, ghost list: seq<Element>) returns (found: bool, id: ObjectId)
      requires Laid(table, starts, list) && |list| < WORD
      ensures found <==> wanted < |list| && list[wanted].reachable
      ensures found ==> id == list[wanted].id
    {
      found, id := false, ObjectId(0, 0);
      var index: Word, count: Word, r := wanted, 0, 0;
      ghost var base: nat := 0;
      while r < |table|
        invariant r <= |table| && base + count == starts[r] <= |list|
        invariant index == Minus(wanted, base)
        invariant wanted < starts[r] ==> !list[wanted].reachable
      {
        assert RowLaid(table[r], starts[r], starts[r + 1], list);
        if table[r].counted {
          WrapsOnce(wanted, base, count, |table[r].members|);
          index := Minus(index, count);
          count := |table[r].members|;
          if index < count {
            if table[r].indexed {
              return true, ObjectId(table[r].kind, table[r].members[index].instance);
            }
          }
          base := starts[r];
        }
        r := r + 1;
      }
    }

    /** `Device_Valid_Object_Name`: the first object of the list with the name. */
    method ValidObjectName(name: Name) returns (found: bool, id: ObjectId)
      requires |ObjectList(table)| < WORD
      ensures var h := HolderFrom(table, name, 0);
              && (found <==> h < |ObjectList(table)|)
              && (found ==> id == ObjectList(table)[h].id)
    {
      found, id := false, ObjectId(0, 0);
      var max := ObjectListCount();
      var i: nat := 1;
      while i <= max
        invariant 0 <= i - 1 <= max && HolderFrom(table, name, 0) == HolderFrom(table, name, i - 1)
      {
        var listed, this_ := ObjectListIdentifier(i);
        if listed {
          var r := FindFunctions(this_.kind);
          if r < |table| && table[r].named {
            var p := Place(table[r].members, this_.instance);
            if p < |table[r].members| && table[r].members[p].name == name {
              assert Carries(table, i - 1, name);
              return true, this_;
            }
          }
        }
        i := i + 1;
      }
    }

    /** Bumping Database_Revision. */
    method IncRevision()
      modifies `revision
      ensures revision == Bumped(old(revision), true)
    {
      revision := (revision + 1) % WORD;
    }

    method SetMembers(r: nat, members: seq<Member>)
      requires r < |table|
      modifies `table
      ensures table == WithMembers(old(table), r, members)
    {
      table := table[r := table[r].(members := members)];
    }

    /** `Device_Write_Property` and `Device_Write_Property_Object_Name`, for Object_Name: the object is renamed
        when it and its row exist, the value is fit, the name is its own or free, and the object takes it;
        else nothing changes. */
    method WriteObjectName(q: Request) returns (status: bool, error: Error)
      requires q.WriteName? && |ObjectList(table)| < WORD
      modifies this
      ensures table == Serve(old(table), q) && (status <==> Renames(old(table), q))
      ensures error == UnknownObject <==> !Exists(old(table), q.kind, q.instance)
      ensures error == WriteAccessDenied <==> Exists(old(table), q.kind, q.instance) && !Writable(old(table), q)
      ensures error == InvalidDataType <==> Writable(old(table), q) && q.value.WrongType?
      ensures error == ValueOutOfRange
              <==> Writable(old(table), q)
                   && (|| q.value.Malformed?
                       || (q.value.Text?
                           && (q.value.name.encoding != 0 || q.value.name.text == "" || !q.value.printable)))
      ensures error == DuplicateName
              <==> Writable(old(table), q) && Acceptable(q.value)
                   && !MayTake(old(table), ObjectId(q.kind, q.instance), q.value.name)
      ensures error == OwnError
              <==> Writable(old(table), q) && Acceptable(q.value) && !q.accepts
                   && MayTake(old(table), ObjectId(q.kind, q.instance), q.value.name)
      ensures status <==> error == NoError
      ensures revision == Bumped(old(revision), status && q.kind == DEVICE && table != old(table))
    {
      status, error := false, NoError;
      var r := FindFunctions(q.kind);
      if r == |table| {
        return false, UnknownObject;
      }
      var p := Place(table[r].members, q.instance);
      if p == |table[r].members| {
        return false, UnknownObject;
      }
      if !table[r].writable {
        return false, WriteAccessDenied;
      }
      if q.value.WrongType? {
        return false, InvalidDataType;
      }
      if q.value.Malformed? || q.value.name.encoding != ANSI || |q.value.name.text| == 0 || !q.value.printable {
        return false, ValueOutOfRange;
      }
      status, error := WriteFitName(r, p, q);
    }

    /** The end of `Device_Write_Property_Object_Name`: a name found on another object is refused. */
    method WriteFitName(r: nat, p: nat, q: Request) returns (status: bool, error: Error)
      requires q.WriteName? && |ObjectList(table)| < WORD && Acceptable(q.value)
      requires r == Row(table, q.kind) < |table| && p == Place(table[r].members, q.instance) < |table[r].members|
      requires table[r].writable
      modifies this
      ensures table == Serve(old(table), q)
      ensures status <==> MayTake(old(table), ObjectId(q.kind, q.instance), q.value.name) && q.accepts
      ensures error == if !MayTake(old(table), ObjectId(q.kind, q.instance), q.value.name) then DuplicateName
              else if !q.accepts then OwnError else NoError
      ensures revision == Bumped(old(revision), status && q.kind == DEVICE && table != old(table))
    {
      status, error := q.accepts, if q.accepts then NoError else OwnError;
      var found, id := ValidObjectName(q.value.name);
      if found && id != ObjectId(q.kind, q.instance) {
        return false, DuplicateName;
      }
      if status {
        RowWriteName(r, p, q);
      }
    }

    /** The row's own write: the Device object looks the name up once more and counts a revision when its
        name changes; other rows just store the name. */
    method RowWriteName(r: nat, p: nat, q: Request)
      requires q.WriteName? && |ObjectList(table)| < WORD && Renames(table, q)
      requires r == Row(table, q.kind) && p == Place(table[r].members, q.instance)
      modifies this
      ensures table == Serve(old(table), q)
      ensures revision == Bumped(old(revision), q.kind == DEVICE && table != old(table))
    {
      if q.kind == DEVICE {
        var status, error := DeviceWriteName(r, p, q);
      } else {
        SetMembers(r, table[r].members[p := Member(q.instance, q.value.name)]);
      }
    }

    /** The Object_Name branch of `Device_Write_Property_Local`, which makes all the tests itself: the value is a
        string that fits, and no other object has the name. */
    method DeviceWriteName(r: nat, p: nat, q: Request) returns (status: bool, error: Error)
      requires q.WriteName? && q.kind == DEVICE && |ObjectList(table)| < WORD
      requires r == Row(table, DEVICE) < |table| && p == Place(table[r].members, q.instance) < |table[r].members|
      requires table[r].writable
      modifies this
      ensures table == Serve(old(table), q) && (status <==> Renames(old(table), q))
      ensures revision == Bumped(old(revision), table != old(table))
      ensures error == InvalidDataType <==> q.value.WrongType?
      ensures error == CharacterSetNotSupported <==> q.value.Text? && q.value.name.encoding != ANSI
      ensures error == ValueOutOfRange
              <==> q.value.Malformed? || (q.value.Text? && q.value.name.encoding == ANSI && !Acceptable(q.value))
      ensures error == NoSpaceToWrite <==> Acceptable(q.value) && !q.accepts
      ensures error == DuplicateName
              <==> Acceptable(q.value) && q.accepts && !MayTake(old(table), ObjectId(DEVICE, q.instance), q.value.name)
      ensures status <==> error == NoError
    {
      if q.value.Malformed? {
        return false, ValueOutOfRange;
      }
      if q.value.WrongType? {
        return false, InvalidDataType;
      }
      if q.value.name.encoding != ANSI {
        return false, CharacterSetNotSupported;
      }
      if |q.value.name.text| == 0 || !q.value.printable {
        return false, ValueOutOfRange;
      }
      if !q.accepts {
        return false, NoSpaceToWrite;
      }
      var found, id := ValidObjectName(q.value.name);
      if found && id != ObjectId(DEVICE, q.instance) {
        return false, DuplicateName;
      }
      RenameOutcome(table, q, r, p);
      if !found && table[r].members[p].name != q.value.name {
        SetMembers(r, table[r].members[p := Member(q.instance, q.value.name)]);
        IncRevision();
      }
      return true, NoError;
    }

    /** Object_Identifier of the Device object: only a device instance number in range is taken. */
    method WriteObjectIdentifier(q: Request) returns (status: bool, error: Error)
      requires q.WriteDeviceId?
      modifies this
      ensures table == Serve(old(table), q) && (status <==> Reidentifies(old(table), q))
      ensures revision == Bumped(old(revision), status)
      ensures error == UnknownObject <==> !Exists(old(table), DEVICE, q.instance)
      ensures error == WriteAccessDenied <==> Exists(old(table), DEVICE, q.instance) && !Writable(old(table), q)
      ensures error == InvalidDataType <==> Writable(old(table), q) && q.identifier.OtherType?
      ensures error == ValueOutOfRange
              <==> Writable(old(table), q)
                   && (q.identifier.Undecodable?
                       || (q.identifier.Identifier?
                           && (q.identifier.kind != 8 || q.identifier.instance > 4194303)))
      ensures status <==> error == NoError
    {
      var r := FindFunctions(DEVICE);
      if r == |table| {
        return false, UnknownObject;
      }
      var p := Place(table[r].members, q.instance);
      if p == |table[r].members| {
        return false, UnknownObject;
      }
      if !table[r].writable {
        return false, WriteAccessDenied;
      }
      match q.identifier {
        case Undecodable =>
          return false, ValueOutOfRange;
        case OtherType =>
          return false, InvalidDataType;
        case Identifier(kind, instance) =>
          if kind != DEVICE || instance > MAX_INSTANCE {
            return false, ValueOutOfRange;
          }
      }
      SetMembers(r, table[r].members[p := table[r].members[p].(instance := q.identifier.instance)]);
      IncRevision();
      return true, NoError;
    }

    /** `Device_Create_Object`. */
    method CreateObject(q: Request) returns (status: bool, error: Error, instance: Word)
      requires q.Create?
      requires q.made.Made? && Row(table, q.kind) < |table| ==> q.made.place <= |table[Row(table, q.kind)].members|
      modifies this
      ensures table == Serve(old(table), q) && (status <==> Creates(old(table), q))
      ensures revision == Bumped(old(revision), status)
      ensures status ==> Exists(table, q.kind, instance)
      ensures error == UnsupportedType <==> Row(old(table), q.kind) == |old(table)|
      ensures error == NotCreatable
              <==> Row(old(table), q.kind) < |old(table)| && !Creatable(old(table), q)
      ensures error == AlreadyExists <==> Creatable(old(table), q) && Exists(old(table), q.kind, q.wanted)
      ensures error == WriteAccessDenied
              <==> Creatable(old(table), q) && !Exists(old(table), q.kind, q.wanted) && q.initialValues
      ensures error == NoSpaceForObject
              <==> Creatable(old(table), q) && !Exists(old(table), q.kind, q.wanted) && !q.initialValues
                   && (q.made.NoSpace? || q.made.instance == MAX_INSTANCE)
      ensures status <==> error == NoError
    {
      instance := q.wanted;
      var r := FindFunctions(q.kind);
      if r == |table| {
        return false, UnsupportedType, instance;
      }
      if !table[r].creatable {
        return false, NotCreatable, instance;
      }
      if Place(table[r].members, q.wanted) < |table[r].members| {
        return false, AlreadyExists, instance;
      }
      if q.initialValues {
        return false, WriteAccessDenied, instance;
      }
      if q.made.NoSpace? || q.made.instance == MAX_INSTANCE {
        return false, NoSpaceForObject, instance;
      }
      var m := table[r].members;
      var n := m[..q.made.place] + [Member(q.made.instance, q.made.name)] + m[q.made.place..];
      SetMembers(r, n);
      IncRevision();
      instance := q.made.instance;
      assert n[q.made.place].instance == instance;
      SameRows(old(table), table, q.kind);
      return true, NoError, instance;
    }

    /** `Device_Delete_Object`. */
    method DeleteObject(q: Request) returns (status: bool, error: Error)
      requires q.Delete?
      modifies this
      ensures table == Serve(old(table), q) && (status <==> Deletes(old(table), q))
      ensures revision == Bumped(old(revision), status)
      ensures error == UnsupportedType <==> Row(old(table), q.kind) == |old(table)|
      ensures error == UnknownObject <==> Deletable(old(table), q) && !Exists(old(table), q.kind, q.instance)
      ensures error == NotDeletable
              <==> Row(old(table), q.kind) < |old(table)|
                   && (Deletable(old(table), q) ==> Exists(old(table), q.kind, q.instance) && !q.permits)
      ensures status <==> error == NoError
    {
      var r := FindFunctions(q.kind);
      if r == |table| {
        return false, UnsupportedType;
      }
      if !table[r].deletable {
        return false, NotDeletable;
      }
      var p := Place(table[r].members, q.instance);
      if p == |table[r].members| {
        return false, UnknownObject;
      }
      if !q.permits {
        return false, NotDeletable;
      }
      SetMembers(r, table[r].members[..p] + table[r].members[p + 1..]);
      IncRevision();
      return true, NoError;
    }

    /** Protocol_Object_Types_Supported: the bit of a type, as its low eight bits number it, is set exactly
        when the list holds such an object. */
    method TypesSupported() returns (bits: seq<bool>)
      ensures |bits| == BITS && forall b :: 0 <= b < BITS ==> (bits[b] <==> TypeListed(table, b))
    {
      bits := seq(BITS, _ => false);
      for r := 0 to |table|
        invariant |bits| == BITS
        invariant forall b :: 0 <= b < BITS ==> (bits[b] <==> TypeListed(table[..r], b))
      {
        assert table[..r + 1] == table[..r] + [table[r]];
        if table[r].counted && |table[r].members| > 0 {
          var b := LowOctet(table[r].kind);
          if b < BITS {
            bits := bits[b := true];
          }
        }
      }
      assert table[..|table|] == table;
    }
  }

  /** What a rename comes to, and that it changes nothing exactly when the object has the name already. */
  lemma RenameOutcome(t: Table, q: Request, r: nat, p: nat)
    requires q.WriteName? && Renames(t, q) && r == Row(t, q.kind) && p == Place(t[r].members, q.instance)
    ensures var m := t[r].members[p := Member(q.instance, q.value.name)];
            && Serve(t, q) == WithMembers(t, r, m)
            && (t[r].members[p].name == q.value.name <==> WithMembers(t, r, m) == t)
    ensures HolderFrom(t, q.value.name, 0) < |ObjectList(t)| ==> t[r].members[p].name == q.value.name
  {
    var m := t[r].members[p := Member(q.instance, q.value.name)];
    var h := HolderFrom(t, q.value.name, 0);
    if h < |ObjectList(t)| {
      assert Carries(t, h, q.value.name);
    }
    assert m[p].name == q.value.name && WithMembers(t, r, m)[r].members == m;
    if t[r].members[p].name == q.value.name {
      assert m == t[r].members;
      assert WithMembers(t, r, m) == t;
    }
  }

  /** Rows keep their types, so lookups find the same row. */
  lemma {:induction false} SameRows(t: Table, u: Table, kind: nat)
    requires |t| == |u| && forall r :: 0 <= r < |t| ==> t[r].kind == u[r].kind
    ensures Row(t, kind) == Row(u, kind)
  {
    var a, b := Row(t, kind), Row(u, kind);
    if a < |t| { assert u[a].kind == kind; }
    if b < |u| { assert t[b].kind == kind; }
  }

  /** A type as a `uint8_t`. */
  function LowOctet(kind: nat): Octet {
    kind % 0x100
  }

  /** The list holds an object whose type has these low eight bits. */
  ghost predicate TypeListed(t: Table, b: nat) {
    exists r :: 0 <= r < |t| && Size(t[r]) > 0 && LowOctet(t[r].kind) == b
  }

  /** An object of this type is in the list. */
  ghost predicate TypePresent(t: Table, kind: nat) {
    exists k :: 0 <= k < |ObjectList(t)| && ObjectList(t)[k].id.kind == kind
  }

  lemma PresentMeans(t: Table, kind: nat)
    ensures TypePresent(t, kind) <==> exists r :: 0 <= r < |t| && Size(t[r]) > 0 && t[r].kind == kind
  {
    if TypePresent(t, kind) {
      var k: nat :| k < |ObjectList(t)| && ObjectList(t)[k].id.kind == kind;
      var r, i := Locate(t, k);
      RowAt(t, r, i);
    }
    forall r | 0 <= r < |t| && Size(t[r]) > 0 && t[r].kind == kind ensures TypePresent(t, kind) {
      RowAt(t, r, 0);
    }
  }

  ghost predicate BitsExact(t: Table) {
    forall b: nat :: b < BITS ==> (TypeListed(t, b) <==> TypePresent(t, b))
  }

  /** Row `r` sets the bit of another type, one that has no object. */
  ghost predicate Strays(t: Table, r: nat)
    requires r < |t|
  {
    Size(t[r]) > 0 && LowOctet(t[r].kind) < BITS && !TypePresent(t, LowOctet(t[r].kind))
  }

  lemma PresentIsListed(t: Table, b: nat)
    requires b < BITS && TypePresent(t, b)
    ensures TypeListed(t, b)
  {
    PresentMeans(t, b);
    var r :| 0 <= r < |t| && Size(t[r]) > 0 && t[r].kind == b;
    assert LowOctet(t[r].kind) == b;
  }

  /** The bits are exactly the types in the list if and only if no row strays: cut to eight bits, its type
      is itself, is no bit, or is a listed type. */
  lemma BitsAreTypes(t: Table)
    ensures BitsExact(t) <==> forall r :: 0 <= r < |t| ==> !Strays(t, r)
  {
    if BitsExact(t) {
      forall r | 0 <= r < |t| ensures !Strays(t, r) {
        if Size(t[r]) > 0 && LowOctet(t[r].kind) < BITS {
          assert TypeListed(t, LowOctet(t[r].kind));
        }
      }
    }
    if forall r :: 0 <= r < |t| ==> !Strays(t, r) {
      forall b: nat | b < BITS ensures TypeListed(t, b) <==> TypePresent(t, b) {
        if TypePresent(t, b) {
          PresentIsListed(t, b);
        }
        if TypeListed(t, b) {
          var r :| 0 <= r < |t| && Size(t[r]) > 0 && LowOctet(t[r].kind) == b;
          assert !Strays(t, r);
        }
      }
    }
  }

  lemma AddWraps(a: nat, b: nat)
    ensures (a % WORD + b) % WORD == (a + b) % WORD
  {
    var q := a / WORD;
    assert a + b == a % WORD + b + q * WORD;
    MultipleDrops(a % WORD + b, q);
  }

  lemma {:induction false} MultipleDrops(x: nat, q: nat)
    ensures (x + q * WORD) % WORD == x % WORD
  {
    if q > 0 { MultipleDrops(x, q - 1); }
  }

  /** `uint32_t` subtraction. */
  function Minus(a: Word, b: Word): Word {
    if a >= b then a - b else a - b + WORD
  }

  /** A 32-bit subtraction past a counted row: the rest is smaller than the next count exactly when the
      wanted element lies there. */
  lemma WrapsOnce(wanted: Word, base: nat, count: nat, next: nat)
    requires base + count + next < WORD
    ensures var before := base + count;
            && Minus(Minus(wanted, base), count) == Minus(wanted, before)
            && (Minus(wanted, before) < next <==> before <= wanted < before + next)
            && (before <= wanted ==> Minus(wanted, before) == wanted - before)
  {
  }

  /** A row fills the list from its start to the next. */
  ghost predicate RowLaid(c: ObjectClass, start: nat, next: nat, list: seq<Element>) {
    && next == start + Size(c) && next <= |list|
    && forall i :: start <= i < next ==> list[i] == ElementOf(c, i - start)
  }

  ghost predicate Laid(t: Table, starts: seq<nat>, list: seq<Element>) {
    && |starts| == |t| + 1 && starts[0] == 0 && starts[|t|] == |list|
    && forall r {:trigger t[r]} :: 0 <= r < |t| ==> RowLaid(t[r], starts[r], starts[r + 1], list)
  }

  lemma Starts(t: Table) returns (starts: seq<nat>)
    ensures Laid(t, starts, ObjectList(t))
  {
    starts := seq(|t| + 1, r requires 0 <= r <= |t| => Start(t, r));
    assert t[..|t|] == t && t[..0] == [];
    forall r {:trigger t[r]} | 0 <= r < |t| ensures RowLaid(t[r], starts[r], starts[r + 1], ObjectList(t)) {
      NextStart(t, r);
      RowAt(t, r, 0);
      forall i | starts[r] <= i < starts[r + 1] ensures ObjectList(t)[i] == ElementOf(t[r], i - starts[r]) {
        RowAt(t, r, i - starts[r]);
      }
    }
  }
}
