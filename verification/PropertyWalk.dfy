/** How `epics` reads the properties of an object one by one, arrays it cannot read whole element by element,
    and goes on to the next object. */
module PropertyWalk {
  import opened Octets
  import opened Wrappers

  /** BACNET_ARRAY_ALL. */
  const ARRAY_ALL: Word := 0xFFFF_FFFF

  datatype ObjectKey = ObjectKey(kind: nat, instance: nat)

  /** OBJECT_DEVICE. */
  const DEVICE: nat := 8

  datatype Request = Ask(key: ObjectKey, property: int, arrayIndex: Word)

  /** What a request is answered with: data, with the number it holds if it is an unsigned one, or an error; an
      error is worth another try when neither its class is Property nor its code Unknown Property. */
  datatype Reply = Data(number: Option<nat>) | Error(retry: bool)

  datatype Phase = Requesting | Awaiting | NextObject | Finished

  /** PROP_OBJECT_LIST. */
  const OBJECT_LIST: int := 76

  /** Properties that may be too long to read whole. */
  predicate LongArray(property: int) {
    property == OBJECT_LIST || property == 110 || property == 209 || property == 210 || property == 211
  }

  /** The object and its place in the object list, Property_List_Index, Using_Walked_List, Walked_List_Index,
      Walked_List_Length, IsLongArray and myState. */
  datatype State = State(key: ObjectKey, place: int, index: nat, walking: bool, element: Word, length: Word,
                         long: bool, phase: Phase)

  /** The array index asked for. */
  function Asked(s: State): Word {
    if !s.walking then ARRAY_ALL else if s.length == 0 then 0 else s.element
  }

  /** The next request of the state, if there is a property left. */
  function NextRequest(properties: seq<int>, s: State): Request
    requires s.index < |properties|
  {
    Ask(s.key, properties[s.index], Asked(s))
  }

  /** GET_PROPERTY_REQUEST. */
  function Sent(properties: seq<int>, s: State): State {
    if s.index >= |properties| then s.(phase := NextObject)
    else s.(long := !s.walking && LongArray(properties[s.index]), phase := Awaiting)
  }

  /** Counting in 32 bits. */
  function Following(i: Word): (j: Word)
    ensures j == if i == ARRAY_ALL then 0 else i + 1
  {
    (i + 1) % WORD
  }

  /** A number stored in 32 bits. */
  function Stored(n: nat): Word {
    n % WORD
  }

  /** The length of the array walked, once the answer is in: an unsigned number in answer to index 0 of an array
      property is taken for it, in 32 bits. */
  function LengthAfter(s: State, number: Option<nat>, isArray: bool): Word {
    if s.walking && Asked(s) == 0 && isArray && number.Some? then Stored(number.value) else s.length
  }

  /** GET_PROPERTY_RESPONSE, with data. */
  function Answered(s: State, number: Option<nat>, isArray: bool): State {
    if s.walking then
      var length := LengthAfter(s, number, isArray);
      var element := Following(s.element);
      if element > length
      then s.(index := s.index + 1, walking := false, element := element, length := length, phase := Requesting)
      else s.(element := element, length := length, phase := Requesting)
    else s.(index := s.index + 1, phase := Requesting)
  }

  /** GET_PROPERTY_RESPONSE, with an error. */
  function Failed(properties: seq<int>, s: State, retry: bool): State {
    if retry && s.long then s.(walking := true, element := 0, length := 0, phase := Requesting)
    else s.(index := s.index + 1, phase := if s.index + 1 >= |properties| then NextObject else Requesting)
  }

  /** The place of the first object behind `i` that is not the Device object; the end if there is none. */
  function NextPlace(keys: seq<ObjectKey>, i: int): (j: nat)
    requires -1 <= i < |keys|
    ensures i < j <= |keys| && (j < |keys| ==> keys[j].kind != DEVICE)
    ensures forall k :: i < k < j ==> keys[k].kind == DEVICE
    decreases |keys| - i
  {
    if i + 1 == |keys| then i + 1
    else if keys[i + 1].kind == DEVICE then NextPlace(keys, i + 1)
    else i + 1
  }

  /** NEXT_OBJECT: from the Device object to the beginning of the object list, from any other to the next in it;
      only the property index starts again, an element walk left on stays on. */
  function Advanced(keys: seq<ObjectKey>, deviceOnly: bool, s: State): State
    requires -1 <= s.place < |keys|
  {
    if s.key.kind == DEVICE && deviceOnly then s.(place := -1, phase := Finished)
    else
      var j := NextPlace(keys, if s.key.kind == DEVICE then -1 else s.place);
      if j == |keys| then s.(place := j, phase := Finished)
      else s.(key := keys[j], place := j, index := 0, phase := Requesting)
  }

  /** MAX_PROPS. */
  const MAX_PROPS: nat := 128

  /** The list to fall back on: the required and, if wanted, the optional properties of the object type. */
  function Fallback(required: seq<int>, optional: seq<int>, wantOptional: bool): seq<int> {
    var all := required + if wantOptional then optional else [];
    if |all| > MAX_PROPS then all[..MAX_PROPS] else all
  }

  /** It asks for every required property and, if they are wanted, every optional one, and for no others, in the
      order of the lists, as far as there is room for 128. */
  lemma FallbackAsks(required: seq<int>, optional: seq<int>, wantOptional: bool)
    ensures var list, all := Fallback(required, optional, wantOptional), |required| + |optional|;
            && |list| <= 128 && (|list| < 128 ==> |list| == if wantOptional then all else |required|)
            && (forall i :: 0 <= i < |list| && i < |required| ==> list[i] == required[i])
            && (forall i :: |required| <= i < |list| ==>
                  wantOptional && i - |required| < |optional| && list[i] == optional[i - |required|])
  {
  }

  class Walker {
    /** Object_List, and whether only the Device object is to be shown. */
    const keys: seq<ObjectKey>
    const deviceOnly: bool
    /** The property lists of each object type, and its array properties. */
    const required: nat -> seq<int>
    const optional: nat -> seq<int>
    const isArray: (nat, int) -> bool
    const wantOptional: bool
    const hasRpm: bool
    /** Property_List: empty, or what reading all properties at once has found. */
    var properties: seq<int>
    var key: ObjectKey
    var place: int
    var index: nat
    var walking: bool
    var element: Word
    var length: Word
    var long: bool
    var phase: Phase

    ghost function Contents(): State
      reads this
    {
      State(key, place, index, walking, element, length, long, phase)
    }

    /** The list a request is taken from. */
    ghost function Current(): seq<int>
      reads this
    {
      if (!hasRpm && index == 0) || properties == []
      then Fallback(required(key.kind), optional(key.kind), wantOptional)
      else properties
    }

    constructor (keys: seq<ObjectKey>, deviceOnly: bool, required: nat -> seq<int>, optional: nat -> seq<int>,
                 isArray: (nat, int) -> bool, wantOptional: bool, hasRpm: bool, device: nat, found: seq<int>)
      ensures this.keys == keys && this.deviceOnly == deviceOnly
      ensures this.required == required && this.optional == optional && this.isArray == isArray
      ensures this.wantOptional == wantOptional && this.hasRpm == hasRpm && properties == found
      ensures Contents() == State(ObjectKey(DEVICE, device), -1, 0, false, 0, 0, false, Requesting)
    {
      this.keys, this.deviceOnly := keys, deviceOnly;
      this.required, this.optional, this.isArray := required, optional, isArray;
      this.wantOptional, this.hasRpm, properties := wantOptional, hasRpm, found;
      key, place := ObjectKey(DEVICE, device), -1;
      index, walking, element, length, long, phase := 0, false, 0, 0, false, Requesting;
    }

    /** The copying loop of `Read_Properties`. */
    method BuildList()
      modifies `properties
      ensures properties == Fallback(required(key.kind), optional(key.kind), wantOptional)
    {
      var first, second := required(key.kind), optional(key.kind);
      var count := |first| + if wantOptional then |second| else 0;
      if count > MAX_PROPS {
        count := MAX_PROPS;
      }
      properties := [];
      var j := 0;
      for i := 0 to count
        invariant j == (if i <= |first| then 0 else i - |first|)
        invariant properties == (first + if wantOptional then second else [])[..i]
      {
        if i < |first| {
          properties := properties + [first[i]];
        } else if wantOptional {
          properties := properties + [second[j]];
          j := j + 1;
        }
      }
    }

    /** `Read_Properties` and the state that calls it. */
    method ReadProperties() returns (sent: bool, request: Request)
      requires phase == Requesting
      modifies this
      ensures properties == old(Current())
      ensures Contents() == Sent(properties, old(Contents())) && (sent <==> phase == Awaiting)
      ensures sent ==> old(index) < |properties| && request == NextRequest(properties, old(Contents()))
    {
      if (!hasRpm && index == 0) || |properties| == 0 {
        BuildList();
      }
      sent, request := false, Ask(key, 0, 0);
      if index < |properties| {
        long := false;
        var arrayIndex := ARRAY_ALL;
        if walking {
          arrayIndex := if length == 0 then 0 else element;
        } else if LongArray(properties[index]) {
          long := true;
        }
        sent, request := true, Ask(key, properties[index], arrayIndex);
        phase := Awaiting;
      } else {
        phase := NextObject;
      }
    }

    /** The answer, or what came in its place. */
    method Response(reply: Reply)
      requires phase == Awaiting && index < |properties|
      modifies this
      ensures properties == old(properties)
      ensures Contents() == if reply.Data?
                            then Answered(old(Contents()), reply.number, isArray(key.kind, properties[old(index)]))
                            else Failed(properties, old(Contents()), reply.retry)
    {
      phase := Requesting;
      if reply.Data? {
        if walking {
          TakeLength(reply.number);
          element := Following(element);
          if element > length {
            index := index + 1;
            walking := false;
          }
        } else {
          index := index + 1;
        }
      } else if reply.retry && long {
        walking := true;
        element, length := 0, 0;
      } else {
        index := index + 1;
        if index >= |properties| {
          phase := NextObject;
        }
      }
    }

    /** The beginning of `PrintReadPropertyArray`, in an element walk. */
    method TakeLength(number: Option<nat>)
      requires walking && index < |properties|
      modifies `length
      ensures length == LengthAfter(old(Contents()), number, isArray(key.kind, properties[index]))
    {
      var asked := if length == 0 then 0 else element;
      if isArray(key.kind, properties[index]) && asked == 0 && number.Some? {
        length := Stored(number.value);
      }
    }

    /** NEXT_OBJECT and `StartNextObject`; `found` is the list that reading all properties of the new object at
        once has found. */
    method Advance(found: seq<int>)
      requires phase == NextObject && -1 <= place < |keys|
      modifies this
      ensures Contents() == Advanced(keys, deviceOnly, old(Contents()))
      ensures phase == Requesting ==> properties == if hasRpm then found else []
    {
      if key.kind == DEVICE {
        place := -1;
        if deviceOnly {
          phase := Finished;
          return;
        }
      }
      place := AdvancePlace(keys, place);
      if place < |keys| {
        key, index, phase := keys[place], 0, Requesting;
        properties := if hasRpm then found else [];
      } else {
        phase := Finished;
      }
    }
  }

  /** The loop that looks for the next object. */
  method AdvancePlace(keys: seq<ObjectKey>, index: int) returns (place: nat)
    requires -1 <= index < |keys|
    ensures place == NextPlace(keys, index)
  {
    var i := index;
    var again := true;
    while again
      invariant again ==> -1 <= i < |keys| && NextPlace(keys, i) == NextPlace(keys, index)
      invariant !again ==> i == NextPlace(keys, index)
      decreases |keys| - i, again
    {
      i := i + 1;
      again := i < |keys| && keys[i].kind == DEVICE;
    }
    place := i;
  }
}
