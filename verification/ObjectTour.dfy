/** The whole run of `epics` over the properties of the Device object and then of every other object: it visits
    every object and ends, and when its requests are the ones they should be. */
module ObjectTour {
  import opened Octets
  import opened Wrappers
  import opened PropertyWalk

  /** The device's instance number, the object list found, whether only the Device object is shown, the property
      list of each object, and which of its properties are arrays. */
  datatype Plan = Plan(device: nat, keys: seq<ObjectKey>, deviceOnly: bool, list: ObjectKey -> seq<int>,
                       isArray: (nat, int) -> bool)

  // ----- what there is to visit -----

  function NonDevices(keys: seq<ObjectKey>): seq<ObjectKey> {
    if keys == [] then []
    else if keys[0].kind == DEVICE then NonDevices(keys[1..])
    else [keys[0]] + NonDevices(keys[1..])
  }

  /** The Device object, then every other object of the list, in order, once. */
  function Objects(p: Plan): seq<ObjectKey> {
    [ObjectKey(DEVICE, p.device)] + if p.deviceOnly then [] else NonDevices(p.keys)
  }

  datatype Item = Item(key: ObjectKey, property: int)

  function Own(key: ObjectKey, properties: seq<int>): seq<Item> {
    seq(|properties|, i requires 0 <= i < |properties| => Item(key, properties[i]))
  }

  /** The properties of these objects, one object after the other. */
  function Items(p: Plan, objects: seq<ObjectKey>): seq<Item> {
    if objects == [] then []
    else
      var k := |objects| - 1;
      Items(p, objects[..k]) + Own(objects[k], p.list(objects[k]))
  }

  function AllItems(p: Plan): seq<Item> {
    Items(p, Objects(p))
  }

  lemma {:induction false} ItemsGrow(p: Plan, a: seq<ObjectKey>, b: seq<ObjectKey>)
    ensures Items(p, a) <= Items(p, a + b)
    decreases |b|
  {
    if b == [] {
      assert a + b == a;
    } else {
      var k := |a + b| - 1;
      assert (a + b)[..k] == a + b[..|b| - 1];
      ItemsGrow(p, a, b[..|b| - 1]);
    }
  }

  // ----- what should be asked -----

  /** How a property comes out: read whole, refused, refused even its length, or element by element with the
      length that the device gave. */
  datatype Outcome = Whole | Refused | LengthRefused | Elements(n: Word)

  function Indices(item: Item, n: nat): (s: seq<Request>)
    requires n <= WORD
    ensures |s| == n
  {
    seq(n, i requires 0 <= i < n => Ask(item.key, item.property, i))
  }

  /** The requests a property should take: the whole of it, and for an element walk its length and then each
      element in order, once. */
  function Expected(item: Item, o: Outcome): seq<Request> {
    [Ask(item.key, item.property, ARRAY_ALL)] + match o
                                                case Whole => []
                                                case Refused => []
                                                case LengthRefused => Indices(item, 1)
                                                case Elements(n) => Indices(item, n + 1)
  }

  function AllExpected(items: seq<Item>, outcomes: seq<Outcome>): seq<Request>
    requires |outcomes| <= |items|
  {
    if outcomes == [] then []
    else
      var k := |outcomes| - 1;
      AllExpected(items, outcomes[..k]) + Expected(items[k], outcomes[k])
  }

  // ----- runs -----

  /** The state, the objects begun, the requests made and how the finished properties came out. */
  datatype World = World(s: State, begun: seq<ObjectKey>, requests: seq<Request>, outcomes: seq<Outcome>)

  datatype Event = Send | Receive(reply: Reply) | Next

  function Begin(p: Plan): World {
    var d := ObjectKey(DEVICE, p.device);
    World(State(d, -1, 0, false, 0, 0, false, Requesting), [d], [], [])
  }

  /** Requests when one is due, answers when one is awaited, the next object when one is done. */
  predicate Possible(w: World, e: Event) {
    w.s.phase == match e case Send => Requesting case Receive(_) => Awaiting case Next => NextObject
  }

  /** What the tool takes the property under way for, when data or an error finishes it. */
  function Came(s: State, t: State, reply: Reply): Outcome {
    if s.walking then if reply.Error? && s.length == 0 then LengthRefused else Elements(t.length)
    else if reply.Error? then Refused else Whole
  }

  function Replied(p: Plan, s: State, reply: Reply): State {
    var properties := p.list(s.key);
    if reply.Error? then Failed(properties, s, reply.retry)
    else Answered(s, reply.number, s.index < |properties| && p.isArray(s.key.kind, properties[s.index]))
  }

  function After(p: Plan, w: World, e: Event): World {
    match e
    case Send =>
      w.(s := Sent(p.list(w.s.key), w.s),
         requests := if w.s.index < |p.list(w.s.key)| then w.requests + [NextRequest(p.list(w.s.key), w.s)]
                     else w.requests)
    case Receive(reply) =>
      var t := Replied(p, w.s, reply);
      w.(s := t, outcomes := if t.index == w.s.index then w.outcomes else w.outcomes + [Came(w.s, t, reply)])
    case Next =>
      if -1 <= w.s.place < |p.keys| then
        var t := Advanced(p.keys, p.deviceOnly, w.s);
        w.(s := t, begun := if t.phase == Finished then w.begun else w.begun + [t.key])
      else w
  }

  function Run(p: Plan, w: World, es: seq<Event>): World
    decreases |es|
  {
    if es == [] then w else Run(p, After(p, w, es[0]), es[1..])
  }

  ghost predicate PossibleRun(p: Plan, w: World, es: seq<Event>)
    decreases |es|
  {
    es != [] ==> Possible(w, es[0]) && PossibleRun(p, After(p, w, es[0]), es[1..])
  }

  // ----- what every run keeps -----

  /** The variables of the walk, errors inside it included. */
  ghost predicate Sane(p: Plan, s: State) {
    && s.index <= |p.list(s.key)|
    && (s.phase == Awaiting ==> s.index < |p.list(s.key)|)
    && (s.phase == NextObject || s.phase == Finished ==> s.index == |p.list(s.key)|)
    && (s.phase != Finished ==> -1 <= s.place < |p.keys| && (s.place == -1 ==> s.key.kind == DEVICE))
    && (s.walking ==> s.element <= s.length)
    && (s.walking && s.element == 0 ==> s.length == 0 || s.length == ARRAY_ALL)
    && (s.phase == Awaiting ==> (s.long <==> !s.walking && LongArray(p.list(s.key)[s.index])))
  }

  /** The objects behind place `i`. */
  function Behind(keys: seq<ObjectKey>, i: int): seq<ObjectKey>
    requires -1 <= i < |keys|
  {
    NonDevices(keys[i + 1..])
  }

  /** The objects still to come. */
  function Ahead(p: Plan, s: State): seq<ObjectKey>
    requires s.phase != Finished ==> -1 <= s.place < |p.keys|
  {
    if s.phase == Finished || (s.key.kind == DEVICE && p.deviceOnly) then []
    else Behind(p.keys, if s.key.kind == DEVICE then -1 else s.place)
  }

  /** Where the run has come to: every property of the objects left behind has its outcome, and those of the
      present one up to the index. */
  ghost predicate Located(p: Plan, w: World) {
    && Sane(p, w.s) && w.begun != [] && w.begun[|w.begun| - 1] == w.s.key
    && w.begun + Ahead(p, w.s) == Objects(p)
    && |w.outcomes| == |Items(p, w.begun[..|w.begun| - 1])| + w.s.index
  }

  lemma BeginLocated(p: Plan)
    ensures Located(p, Begin(p))
  {
    assert p.keys[0..] == p.keys;
  }

  lemma {:induction false} SkipDevices(keys: seq<ObjectKey>, i: nat, j: nat)
    requires i <= j <= |keys| && forall k :: i <= k < j ==> keys[k].kind == DEVICE
    ensures NonDevices(keys[i..]) == NonDevices(keys[j..])
    decreases j - i
  {
    if i < j {
      assert keys[i..][1..] == keys[i + 1..];
      SkipDevices(keys, i + 1, j);
    }
  }

  lemma NextOf(keys: seq<ObjectKey>, i: int)
    requires -1 <= i < |keys|
    ensures var j := NextPlace(keys, i);
            && (j == |keys| ==> Behind(keys, i) == [])
            && (j < |keys| ==> Behind(keys, i) == [keys[j]] + Behind(keys, j))
  {
    var j := NextPlace(keys, i);
    SkipDevices(keys, i + 1, j);
    if j < |keys| {
      assert keys[j..][1..] == keys[j + 1..];
    }
  }

  /** The search of NEXT_OBJECT finds the first of the objects still to come, and none but those. */
  lemma NextIsAhead(p: Plan, s: State)
    requires s.phase == NextObject && -1 <= s.place < |p.keys|
    ensures var t := Advanced(p.keys, p.deviceOnly, s);
            && (t.phase == Finished ==> Ahead(p, s) == [])
            && (t.phase != Finished ==> t.key.kind != DEVICE && -1 <= t.place < |p.keys|
                                        && Ahead(p, s) == [t.key] + Ahead(p, t))
  {
    if !(s.key.kind == DEVICE && p.deviceOnly) {
      NextOf(p.keys, if s.key.kind == DEVICE then -1 else s.place);
    }
  }

  lemma DataSane(p: Plan, s: State, number: Option<nat>)
    requires Sane(p, s) && s.phase == Awaiting
    ensures Sane(p, Replied(p, s, Data(number)))
  {
    if s.walking {
      var t := Replied(p, s, Data(number));
      assert t.walking ==> t.element == Following(s.element) && t.element <= t.length;
    }
  }

  lemma ErrorSane(p: Plan, s: State, retry: bool)
    requires Sane(p, s) && s.phase == Awaiting
    ensures Sane(p, Replied(p, s, Error(retry)))
  {
  }

  lemma SaneStep(p: Plan, w: World, e: Event)
    requires Sane(p, w.s) && Possible(w, e)
    ensures Sane(p, After(p, w, e).s)
  {
    match e
    case Send =>
    case Receive(Data(number)) => DataSane(p, w.s, number);
    case Receive(Error(retry)) => ErrorSane(p, w.s, retry);
    case Next => NextIsAhead(p, w.s);
  }

  /** A step within an object. */
  lemma WithinObject(p: Plan, w: World, e: Event)
    requires Sane(p, w.s) && Possible(w, e) && !e.Next?
    ensures var u := After(p, w, e);
            && u.s.key == w.s.key && u.s.place == w.s.place && u.begun == w.begun && u.s.phase != Finished
            && |u.outcomes| - u.s.index == |w.outcomes| - w.s.index
  {
  }

  /** What the step to the next object changes. */
  lemma NextChanges(p: Plan, w: World, u: World)
    requires Sane(p, w.s) && w.s.phase == NextObject && u == After(p, w, Next)
    ensures u.s == Advanced(p.keys, p.deviceOnly, w.s) && u.outcomes == w.outcomes && u.requests == w.requests
    ensures u.s.phase == Finished ==> u.begun == w.begun && u.s.index == w.s.index && u.s.key == w.s.key
    ensures u.s.phase != Finished ==> u.begun == w.begun + [u.s.key] && u.s.index == 0
    ensures u.s.walking == w.s.walking && u.s.element == w.s.element && u.s.length == w.s.length
    ensures u.s.phase == Finished || u.s.phase == Requesting
  {
  }

  lemma NextLocated(p: Plan, w: World, u: World)
    requires Located(p, w) && w.s.phase == NextObject && u == After(p, w, Next)
    ensures Sane(p, u.s) && u.begun + Ahead(p, u.s) == Objects(p)
  {
    NextChanges(p, w, u);
    SaneStep(p, w, Next);
    NextIsAhead(p, w.s);
    if u.s.phase != Finished {
      Associate(w.begun, [u.s.key], Ahead(p, u.s));
    }
  }

  lemma ObjectDone(p: Plan, begun: seq<ObjectKey>)
    requires begun != []
    ensures |Items(p, begun)| == |Items(p, begun[..|begun| - 1])| + |p.list(begun[|begun| - 1])|
  {
  }

  lemma StepLocated(p: Plan, w: World, e: Event)
    requires Located(p, w) && Possible(w, e)
    ensures Located(p, After(p, w, e))
  {
    var u := After(p, w, e);
    if e.Next? {
      NextChanges(p, w, u);
      NextLocated(p, w, u);
      ObjectDone(p, w.begun);
      assert u.s.phase != Finished ==> u.begun[..|u.begun| - 1] == w.begun;
    } else {
      WithinObject(p, w, e);
      SaneStep(p, w, e);
    }
  }

  /** The property under way is the first that has no outcome. */
  lemma UnderWay(p: Plan, w: World)
    requires Located(p, w)
    ensures |w.outcomes| <= |AllItems(p)|
    ensures w.s.index < |p.list(w.s.key)| ==>
              |w.outcomes| < |AllItems(p)| && AllItems(p)[|w.outcomes|] == Item(w.s.key, p.list(w.s.key)[w.s.index])
    ensures w.s.phase == Finished ==> |w.outcomes| == |AllItems(p)| && w.begun == Objects(p)
  {
    ItemsGrow(p, w.begun, Ahead(p, w.s));
    if w.s.phase == Finished {
      assert w.begun + [] == w.begun;
    }
  }

  // ----- runs without errors inside an element walk -----

  /** A length after which no index is free: 2^32 - 1 is BACNET_ARRAY_ALL, and the index behind it is 0. */
  predicate Overlong(s: State) {
    s.walking && s.length == ARRAY_ALL
  }

  /** In every state of every run an element walk asks for the element it counts, as an assertion in the source
      demands of the answer. */
  lemma AskedIsElement(p: Plan, s: State)
    requires Sane(p, s) && s.walking
    ensures Asked(s) == s.element
  {
  }

  /** The requests made so far for the property under way. */
  function Partial(item: Item, s: State): seq<Request> {
    var made := if s.walking then [Ask(item.key, item.property, ARRAY_ALL)] + Indices(item, s.element) else [];
    if s.phase == Awaiting then made + [Ask(item.key, item.property, Asked(s))] else made
  }

  /** Only expected requests have been made, and the walk is on only within a property, or behind the last. */
  ghost predicate Good(p: Plan, w: World) {
    var items := AllItems(p);
    && Located(p, w) && |w.outcomes| <= |items|
    && (w.s.walking && |w.outcomes| < |items| ==>
          w.s.index < |p.list(w.s.key)| && (w.s.phase == Requesting || w.s.phase == Awaiting))
    && w.requests == AllExpected(items, w.outcomes) +
       if |w.outcomes| < |items| then Partial(items[|w.outcomes|], w.s) else []
  }

  /** An event of its phase, and no error inside an element walk unless it answers the last request of all. */
  predicate Allowed(p: Plan, w: World, e: Event) {
    && Possible(w, e)
    && (e.Receive? && e.reply.Error? && w.s.walking ==>
          |w.outcomes| + 1 == |AllItems(p)| && w.s.element == w.s.length)
  }

  ghost predicate AllowedRun(p: Plan, w: World, es: seq<Event>)
    decreases |es|
  {
    es != [] ==> Allowed(p, w, es[0]) && AllowedRun(p, After(p, w, es[0]), es[1..])
  }

  /** The device never gives a length of 2^32 - 1. */
  ghost predicate BoundedRun(p: Plan, w: World, es: seq<Event>)
    decreases |es|
  {
    !Overlong(w.s) && (es != [] ==> BoundedRun(p, After(p, w, es[0]), es[1..]))
  }

  lemma SendGood(p: Plan, w: World)
    requires Good(p, w) && w.s.phase == Requesting
    ensures Good(p, After(p, w, Send))
  {
    StepLocated(p, w, Send);
    UnderWay(p, w);
    if w.s.index < |p.list(w.s.key)| {
      var item, done := AllItems(p)[|w.outcomes|], AllExpected(AllItems(p), w.outcomes);
      Associate(done, Partial(item, w.s), [NextRequest(p.list(w.s.key), w.s)]);
    }
  }

  lemma NextGood(p: Plan, w: World)
    requires Good(p, w) && w.s.phase == NextObject
    ensures Good(p, After(p, w, Next))
  {
    StepLocated(p, w, Next);
    NextChanges(p, w, After(p, w, Next));
    UnderWay(p, After(p, w, Next));
  }

  /** The requests of a walk, once the one for the next element was made. */
  lemma ElementAsked(p: Plan, item: Item, s: State)
    requires Sane(p, s) && s.walking && s.phase == Awaiting
    ensures Partial(item, s) == [Ask(item.key, item.property, ARRAY_ALL)] + Indices(item, s.element + 1)
  {
    AskedIsElement(p, s);
    assert Indices(item, s.element) + [Ask(item.key, item.property, s.element)] == Indices(item, s.element + 1);
  }

  /** One more property has come out. */
  lemma OneMore(items: seq<Item>, outcomes: seq<Outcome>, o: Outcome)
    requires |outcomes| < |items|
    ensures AllExpected(items, outcomes + [o]) == AllExpected(items, outcomes) + Expected(items[|outcomes|], o)
  {
    assert (outcomes + [o])[..|outcomes|] == outcomes;
  }

  /** A property that is finished has taken the requests its outcome names. */
  lemma Finishes(p: Plan, item: Item, s: State, reply: Reply)
    requires Sane(p, s) && s.phase == Awaiting && !Overlong(s) && !Overlong(Replied(p, s, reply))
    requires Replied(p, s, reply).index > s.index && (reply.Error? && s.walking ==> s.element == s.length)
    ensures Partial(item, s) == Expected(item, Came(s, Replied(p, s, reply), reply))
  {
    if s.walking { ElementAsked(p, item, s); }
  }

  lemma GoesOn(p: Plan, item: Item, s: State, reply: Reply)
    requires Sane(p, s) && s.phase == Awaiting && !Overlong(s)
    requires Replied(p, s, reply).index == s.index
    ensures Partial(item, s) == Partial(item, Replied(p, s, reply))
  {
    if s.walking { ElementAsked(p, item, s); }
  }

  /** What an answer changes. */
  lemma ReplyChanges(p: Plan, s: State, reply: Reply)
    requires Sane(p, s) && s.phase == Awaiting
    ensures var t := Replied(p, s, reply);
            && (t.index == s.index || t.index == s.index + 1) && t.phase != Awaiting && t.phase != Finished
            && (t.index == s.index ==> t.walking && t.phase == Requesting)
            && (t.index > s.index ==> t.walking == (s.walking && reply.Error?))
            && (reply.Error? && s.walking ==> t.index > s.index && t.element == s.element && t.length == s.length)
  {
  }

  lemma ReplyGood(p: Plan, w: World, reply: Reply)
    requires Good(p, w) && !Overlong(w.s) && Allowed(p, w, Receive(reply)) && !Overlong(Replied(p, w.s, reply))
    ensures Good(p, After(p, w, Receive(reply)))
  {
    var u := After(p, w, Receive(reply));
    StepLocated(p, w, Receive(reply));
    UnderWay(p, w);
    UnderWay(p, u);
    ReplyChanges(p, w.s, reply);
    var item := AllItems(p)[|w.outcomes|];
    if u.s.index > w.s.index {
      Finishes(p, item, w.s, reply);
      OneMore(AllItems(p), w.outcomes, Came(w.s, u.s, reply));
    } else {
      GoesOn(p, item, w.s, reply);
    }
  }

  lemma StepGood(p: Plan, w: World, e: Event)
    requires Good(p, w) && Allowed(p, w, e) && !Overlong(w.s) && !Overlong(After(p, w, e).s)
    ensures Good(p, After(p, w, e))
  {
    match e
    case Send => SendGood(p, w);
    case Receive(reply) => ReplyGood(p, w, reply);
    case Next => NextGood(p, w);
  }

  // ----- runs with such errors -----

  /** The requests expected once these properties have come out: theirs, and the next property whole. */
  function ExpectedNext(items: seq<Item>, outcomes: seq<Outcome>): seq<Request>
    requires |outcomes| <= |items|
  {
    AllExpected(items, outcomes) +
    if |outcomes| < |items| then [Ask(items[|outcomes|].key, items[|outcomes|].property, ARRAY_ALL)] else []
  }

  lemma ExpectedGrows(items: seq<Item>, outcomes: seq<Outcome>, o: Outcome)
    requires |outcomes| < |items|
    ensures ExpectedNext(items, outcomes) <= AllExpected(items, outcomes + [o]) <= ExpectedNext(items, outcomes + [o])
  {
    OneMore(items, outcomes, o);
  }

  /** Request number `i` was not the expected one. */
  ghost predicate Spoiled(p: Plan, w: World, i: nat) {
    && |w.outcomes| <= |AllItems(p)| && i < |w.requests|
    && i < |ExpectedNext(AllItems(p), w.outcomes)| && w.requests[i] != ExpectedNext(AllItems(p), w.outcomes)[i]
  }

  /** The next request will not be the expected one, and if none is made, one is missing. */
  ghost predicate Misled(p: Plan, w: World) {
    && |w.outcomes| <= |AllItems(p)| && w.s.walking && w.s.phase != Awaiting
    && |w.requests| < |ExpectedNext(AllItems(p), w.outcomes)|
    && ExpectedNext(AllItems(p), w.outcomes)[|w.requests|].arrayIndex != Asked(w.s)
  }

  /** No later step mends a wrong request. */
  lemma StaysSpoiled(p: Plan, w: World, e: Event, i: nat)
    requires Spoiled(p, w, i) && Located(p, w) && Possible(w, e)
    ensures Spoiled(p, After(p, w, e), i)
  {
    var u := After(p, w, e);
    StepLocated(p, w, e);
    UnderWay(p, u);
    assert w.requests <= u.requests;
    if e.Receive? && u.s.index > w.s.index {
      ExpectedGrows(AllItems(p), w.outcomes, Came(w.s, u.s, e.reply));
    }
  }

  /** A walk left on shows in the next request, however many objects lie between. */
  lemma MisledStep(p: Plan, w: World, e: Event)
    requires Misled(p, w) && Located(p, w) && Possible(w, e)
    ensures Misled(p, After(p, w, e)) || Spoiled(p, After(p, w, e), |w.requests|)
  {
    if e.Next? { NextChanges(p, w, After(p, w, e)); }
  }

  /** At that moment the next expected request is the property's next element, or the whole of the next property. */
  lemma NextWasElement(item: Item, o: Outcome, s: State, made: seq<Request>, rest: seq<Request>)
    requires s.walking && s.element < s.length && o == Elements(s.length)
    requires |made| == s.element + 2
    ensures |made| < |Expected(item, o)|
    ensures (Expected(item, o) + rest)[|made|] == Ask(item.key, item.property, s.element + 1)
  {
  }

  /** An error inside an element walk, unless it answers the last request of all. */
  lemma ErrorLeavesMisled(p: Plan, w: World, retry: bool)
    requires Good(p, w) && w.s.phase == Awaiting && w.s.walking && !Overlong(w.s)
    requires !Allowed(p, w, Receive(Error(retry)))
    ensures Misled(p, After(p, w, Receive(Error(retry))))
  {
    var reply := Error(retry);
    var u, items := After(p, w, Receive(reply)), AllItems(p);
    StepLocated(p, w, Receive(reply));
    UnderWay(p, w);
    UnderWay(p, u);
    ReplyChanges(p, w.s, reply);
    AskedIsElement(p, w.s);
    var item, o, done := items[|w.outcomes|], Came(w.s, u.s, reply), AllExpected(items, w.outcomes);
    OneMore(items, w.outcomes, o);
    if w.s.element < w.s.length {
      var rest := ExpectedNext(items, u.outcomes)[|AllExpected(items, u.outcomes)|..];
      Associate(done, Expected(item, o), rest);
      NextWasElement(item, o, w.s, Partial(item, w.s), rest);
    } else {
      Finishes(p, item, w.s, reply);
    }
  }

  lemma {:induction false} SpoiledRun(p: Plan, w: World, es: seq<Event>, i: nat)
    requires Spoiled(p, w, i) && Located(p, w) && PossibleRun(p, w, es)
    ensures Spoiled(p, Run(p, w, es), i)
    decreases |es|
  {
    if es != [] {
      StaysSpoiled(p, w, es[0], i);
      StepLocated(p, w, es[0]);
      SpoiledRun(p, After(p, w, es[0]), es[1..], i);
    }
  }

  lemma {:induction false} MisledRun(p: Plan, w: World, es: seq<Event>)
    requires Misled(p, w) && Located(p, w) && PossibleRun(p, w, es)
    ensures Misled(p, Run(p, w, es)) || Spoiled(p, Run(p, w, es), |w.requests|)
    decreases |es|
  {
    if es != [] {
      var u := After(p, w, es[0]);
      MisledStep(p, w, es[0]);
      StepLocated(p, w, es[0]);
      if Misled(p, u) {
        assert |u.requests| == |w.requests|;
        MisledRun(p, u, es[1..]);
      } else {
        SpoiledRun(p, u, es[1..], |w.requests|);
      }
    }
  }

  lemma {:induction false} RunLocated(p: Plan, w: World, es: seq<Event>)
    requires Located(p, w) && PossibleRun(p, w, es)
    ensures Located(p, Run(p, w, es))
    decreases |es|
  {
    if es != [] {
      StepLocated(p, w, es[0]);
      RunLocated(p, After(p, w, es[0]), es[1..]);
    }
  }

  /** A run has made expected requests only or, after such an error, a wrong one, or will. */
  lemma {:induction false} RunDecides(p: Plan, w: World, es: seq<Event>) returns (i: nat)
    requires Good(p, w) && PossibleRun(p, w, es) && BoundedRun(p, w, es)
    ensures AllowedRun(p, w, es) ==> Good(p, Run(p, w, es))
    ensures !AllowedRun(p, w, es) ==> Misled(p, Run(p, w, es)) || Spoiled(p, Run(p, w, es), i)
    decreases |es|
  {
    i := |w.requests|;
    if es != [] {
      var u := After(p, w, es[0]);
      if Allowed(p, w, es[0]) {
        StepGood(p, w, es[0]);
        i := RunDecides(p, u, es[1..]);
      } else {
        ErrorLeavesMisled(p, w, es[0].reply.retry);
        StepLocated(p, w, es[0]);
        MisledRun(p, u, es[1..]);
      }
    }
  }

  lemma BeginGood(p: Plan)
    ensures Good(p, Begin(p))
  {
    BeginLocated(p);
    UnderWay(p, Begin(p));
  }

  /** Over every run to its end, whatever the device answers, all objects have been visited, in order and once
      each, and every property of each has been dealt with in order. */
  lemma AllVisited(p: Plan, es: seq<Event>)
    requires PossibleRun(p, Begin(p), es) && Run(p, Begin(p), es).s.phase == Finished
    ensures Run(p, Begin(p), es).begun == Objects(p) && |Run(p, Begin(p), es).outcomes| == |AllItems(p)|
  {
    BeginLocated(p);
    RunLocated(p, Begin(p), es);
    UnderWay(p, Run(p, Begin(p), es));
  }

  /** And the requests of all objects together are exactly the expected ones if and only if no error came inside
      an element walk anywhere, but for one that answers the very last request. */
  lemma TourIsExact(p: Plan, es: seq<Event>)
    requires PossibleRun(p, Begin(p), es) && Run(p, Begin(p), es).s.phase == Finished
    requires BoundedRun(p, Begin(p), es)
    ensures |Run(p, Begin(p), es).outcomes| == |AllItems(p)|
    ensures Run(p, Begin(p), es).requests == AllExpected(AllItems(p), Run(p, Begin(p), es).outcomes)
            <==> AllowedRun(p, Begin(p), es)
  {
    AllVisited(p, es);
    BeginGood(p);
    var i := RunDecides(p, Begin(p), es);
  }

  // ----- the run ends -----

  /** A device, as a choice of answer in every situation. */
  type Device = World -> Reply

  /** All answers of the run are the device's. */
  ghost predicate Follows(p: Plan, w: World, d: Device, es: seq<Event>)
    decreases |es|
  {
    es != [] ==>
      && (es[0].Receive? ==> es[0].reply == d(w))
      && Follows(p, After(p, w, es[0]), d, es[1..])
  }

  /** Not yet walking, waiting for the length, or walking. */
  function Stage(s: State): nat {
    if !s.walking then 2 else if s.element == 0 then 1 else 0
  }

  function ElementsLeft(s: State): nat {
    if s.walking && 0 < s.element <= s.length then s.length - s.element + 1 else 0
  }

  function ObjectsLeft(p: Plan, s: State): nat
    requires s.phase != Finished ==> -1 <= s.place < |p.keys|
  {
    if s.phase == Finished then 0 else |Ahead(p, s)| + 1
  }

  function PropertiesLeft(p: Plan, s: State): nat
    requires Sane(p, s)
  {
    |p.list(s.key)| - s.index
  }

  /** The end has come nearer. */
  predicate Nearer(p: Plan, s: State, t: State)
    requires Sane(p, s) && Sane(p, t)
  {
    || ObjectsLeft(p, t) < ObjectsLeft(p, s)
    || (ObjectsLeft(p, t) == ObjectsLeft(p, s)
        && (|| PropertiesLeft(p, t) < PropertiesLeft(p, s)
            || (PropertiesLeft(p, t) == PropertiesLeft(p, s)
                && (|| Stage(t) < Stage(s)
                    || (Stage(t) == Stage(s)
                        && (|| ElementsLeft(t) < ElementsLeft(s)
                            || (ElementsLeft(t) == ElementsLeft(s)
                                && s.phase == Requesting && t.phase != Requesting)))))))
  }

  lemma ReplyNearer(p: Plan, s: State, reply: Reply)
    requires Sane(p, s) && s.phase == Awaiting && !Overlong(s)
    requires Sane(p, Replied(p, s, reply)) && !Overlong(Replied(p, s, reply))
    ensures Nearer(p, s, Replied(p, s, reply))
  {
    var t := Replied(p, s, reply);
    assert ObjectsLeft(p, t) == ObjectsLeft(p, s);
  }

  lemma SendNearer(p: Plan, s: State)
    requires Sane(p, s) && s.phase == Requesting && Sane(p, Sent(p.list(s.key), s))
    ensures Nearer(p, s, Sent(p.list(s.key), s))
  {
  }

  lemma StepNearer(p: Plan, w: World, e: Event)
    requires Sane(p, w.s) && Possible(w, e) && !Overlong(w.s)
    ensures Sane(p, After(p, w, e).s)
    ensures !Overlong(After(p, w, e).s) ==> Nearer(p, w.s, After(p, w, e).s)
  {
    SaneStep(p, w, e);
    match e
    case Send => SendNearer(p, w.s);
    case Receive(reply) => if !Overlong(After(p, w, e).s) { ReplyNearer(p, w.s, reply); }
    case Next => NextIsAhead(p, w.s);
  }

  /** What is due in a state. */
  function Due(w: World, d: Device): Event
    requires w.s.phase != Finished
  {
    match w.s.phase
    case Requesting => Send
    case Awaiting => Receive(d(w))
    case NextObject => Next
  }

  /** Whatever a device answers, errors inside element walks included, the run comes to its end, unless the device
      gives a length of 2^32 - 1. */
  lemma {:induction false} TourEnds(p: Plan, w: World, d: Device) returns (es: seq<Event>)
    requires Sane(p, w.s)
    ensures PossibleRun(p, w, es) && Follows(p, w, d, es)
    ensures Run(p, w, es).s.phase == Finished || Overlong(Run(p, w, es).s)
    decreases ObjectsLeft(p, w.s), PropertiesLeft(p, w.s), Stage(w.s), ElementsLeft(w.s), w.s.phase == Requesting
  {
    es := [];
    if w.s.phase != Finished && !Overlong(w.s) {
      var e := Due(w, d);
      StepNearer(p, w, e);
      if Overlong(After(p, w, e).s) {
        es := [e];
        assert [e][1..] == [];
        assert Run(p, w, [e]) == Run(p, After(p, w, e), []);
      } else {
        var rest := TourEnds(p, After(p, w, e), d);
        es := [e] + rest;
        assert es[1..] == rest;
      }
    }
  }

  /** The length stays 2^32 - 1: no other is given when the walk comes round to index 0 again. */
  ghost predicate KeepsLength(p: Plan, w: World, es: seq<Event>)
    decreases |es|
  {
    es != [] ==> After(p, w, es[0]).s.length == ARRAY_ALL && KeepsLength(p, After(p, w, es[0]), es[1..])
  }

  function Errors(es: seq<Event>): nat {
    if es == [] then 0 else (if es[0].Receive? && es[0].reply.Error? then 1 else 0) + Errors(es[1..])
  }

  /** Once it is 2^32 - 1 data never finish a property, in this object or a later one: each takes an error. */
  lemma {:induction false} EndlessWalk(p: Plan, w: World, es: seq<Event>)
    requires Located(p, w) && Overlong(w.s) && PossibleRun(p, w, es) && KeepsLength(p, w, es)
    ensures |Run(p, w, es).outcomes| == |w.outcomes| + Errors(es)
    ensures Run(p, w, es).s.phase == Finished ==> |w.outcomes| + Errors(es) == |AllItems(p)|
    decreases |es|
  {
    if es == [] {
      UnderWay(p, w);
    } else {
      StepLocated(p, w, es[0]);
      OverlongStep(p, w, es[0]);
      EndlessWalk(p, After(p, w, es[0]), es[1..]);
    }
  }

  lemma OverlongStep(p: Plan, w: World, e: Event)
    requires Sane(p, w.s) && Overlong(w.s) && Possible(w, e) && After(p, w, e).s.length == ARRAY_ALL
    ensures After(p, w, e).s.walking
    ensures |After(p, w, e).outcomes| == |w.outcomes| + if e.Receive? && e.reply.Error? then 1 else 0
  {
    if e.Next? { NextChanges(p, w, After(p, w, e)); }
  }

  // ----- what the run does about an error, and about data -----

  /** A property that may be a long array, read whole, answered with an error worth another try, is asked for again
      at index 0, the length; any other error, and any data, takes the run to the next property, asked for whole. */
  lemma WalkBegins(p: Plan, s: State, reply: Reply)
    requires Sane(p, s) && s.phase == Awaiting && !s.walking
    ensures var t, properties := Replied(p, s, reply), p.list(s.key);
            if reply.Error? && reply.retry && LongArray(properties[s.index])
            then t.phase == Requesting && NextRequest(properties, t) == Ask(s.key, properties[s.index], 0)
            else
              && t.index == s.index + 1
              && (t.index < |properties| ==>
                    t.phase == Requesting && NextRequest(properties, t) == Ask(s.key, properties[t.index], ARRAY_ALL))
  {
  }

  /** The length given, the elements are asked for one by one up to it, and then the next property whole. */
  lemma WalkGoesOn(p: Plan, s: State, number: Option<nat>)
    requires Sane(p, s) && s.phase == Awaiting && s.walking && !Overlong(s)
    ensures var t, properties := Replied(p, s, Data(number)), p.list(s.key);
            var length := if s.element == 0 && number.Some? && p.isArray(s.key.kind, properties[s.index])
                          then Stored(number.value) else s.length;
            length < ARRAY_ALL ==>
              if s.element < length
              then t.phase == Requesting
                   && NextRequest(properties, t) == Ask(s.key, properties[s.index], s.element + 1)
              else
                && t.index == s.index + 1 && !t.walking
                && (t.index < |properties| ==>
                      NextRequest(properties, t) == Ask(s.key, properties[t.index], ARRAY_ALL))
  {
    AskedIsElement(p, s);
  }

  // ----- what goes wrong -----

  /** After an error inside an element walk the next property is not asked for whole but at the index the walk had
      reached, and so is the first property of the next object if it was the last. */
  lemma ErrorMisleads(p: Plan, s: State, retry: bool)
    requires Sane(p, s) && s.walking && s.phase == Awaiting
    ensures var properties, t := p.list(s.key), Failed(p.list(s.key), s, retry);
            if t.index < |properties|
            then t.phase == Requesting && NextRequest(properties, t) == Ask(s.key, properties[t.index], s.element)
            else
              && t.phase == NextObject
              && var u := Advanced(p.keys, p.deviceOnly, t);
                 u.phase == Requesting && p.list(u.key) != [] ==>
                   NextRequest(p.list(u.key), u) == Ask(u.key, p.list(u.key)[0], s.element)
  {
    AskedIsElement(p, s);
  }

  lemma {:induction false} RunThrough(p: Plan, ws: seq<World>, es: seq<Event>)
    requires |ws| == |es| + 1
    requires forall i :: 0 <= i < |es| ==> Possible(ws[i], es[i]) && After(p, ws[i], es[i]) == ws[i + 1]
    ensures PossibleRun(p, ws[0], es) && Run(p, ws[0], es) == ws[|es|]
    decreases |es|
  {
    if es != [] {
      assert forall i :: 0 <= i < |es| - 1 ==> es[1..][i] == es[i + 1] && ws[1..][i] == ws[i + 1];
      RunThrough(p, ws[1..], es[1..]);
    }
  }

  /** A device with the properties `first` and one more object, with the property `next`. */
  function Example(first: seq<int>, next: int): Plan {
    Plan(1, [ObjectKey(0, 1)], false, (k: ObjectKey) => if k.kind == DEVICE then first else [next],
         (kind: nat, property: int) => property == OBJECT_LIST)
  }

  /** The object list is refused, its length, 2, is given, and its first element is answered with an error. */
  function ThenError(retry: bool): seq<Event> {
    [Send, Receive(Error(true)), Send, Receive(Data(Some(2))), Send, Receive(Error(retry))]
  }

  function Opening(d: ObjectKey): seq<Request> {
    [Ask(d, OBJECT_LIST, ARRAY_ALL), Ask(d, OBJECT_LIST, 0), Ask(d, OBJECT_LIST, 1)]
  }

  /** The worlds of that run. */
  function Worlds(p: Plan): seq<World> {
    var d := ObjectKey(DEVICE, p.device);
    var w := Begin(p);
    var asked := [Ask(d, OBJECT_LIST, ARRAY_ALL)];
    [w,
     w.(s := w.s.(long := true, phase := Awaiting), requests := asked),
     w.(s := w.s.(walking := true, long := true), requests := asked),
     w.(s := w.s.(walking := true, phase := Awaiting), requests := asked + [Ask(d, OBJECT_LIST, 0)]),
     w.(s := w.s.(walking := true, element := 1, length := 2), requests := asked + [Ask(d, OBJECT_LIST, 0)]),
     w.(s := w.s.(walking := true, element := 1, length := 2, phase := Awaiting), requests := Opening(d))]
  }

  lemma OpeningRuns(p: Plan, retry: bool)
    requires p.list(ObjectKey(DEVICE, p.device)) != [] && p.list(ObjectKey(DEVICE, p.device))[0] == OBJECT_LIST
    requires p.isArray(DEVICE, OBJECT_LIST)
    ensures var ws, es := Worlds(p), ThenError(retry);
            && ws[0] == Begin(p)
            && forall i :: 0 <= i < 5 ==> Possible(ws[i], es[i]) && After(p, ws[i], es[i]) == ws[i + 1]
  {
    var ws, es := Worlds(p), ThenError(retry);
    assert After(p, ws[0], es[0]) == ws[1];
    assert After(p, ws[1], es[1]) == ws[2];
    assert After(p, ws[2], es[2]) == ws[3];
    assert After(p, ws[3], es[3]) == ws[4];
    assert After(p, ws[4], es[4]) == ws[5];
  }

  /** It happens: the property behind the object list is asked for at the index of the element that failed. */
  lemma ErrorMisleadsRun(next: int, retry: bool)
    ensures var p, es := Example([OBJECT_LIST, next], next), ThenError(retry) + [Send];
            && PossibleRun(p, Begin(p), es)
            && Run(p, Begin(p), es).requests
               == Opening(ObjectKey(DEVICE, 1)) + [Ask(ObjectKey(DEVICE, 1), next, 1)]
  {
    var p, es := Example([OBJECT_LIST, next], next), ThenError(retry) + [Send];
    OpeningRuns(p, retry);
    var u := After(p, Worlds(p)[5], es[5]);
    assert u.s == Begin(p).s.(index := 1, walking := true, element := 1, length := 2);
    RunThrough(p, Worlds(p) + [u, After(p, u, Send)], es);
  }

  /** And when the object list is the last property, the next object is asked for it. */
  lemma ErrorMisleadsNextObject(next: int, retry: bool)
    ensures var p, es := Example([OBJECT_LIST], next), ThenError(retry) + [Next, Send];
            && PossibleRun(p, Begin(p), es)
            && Run(p, Begin(p), es).requests
               == Opening(ObjectKey(DEVICE, 1)) + [Ask(ObjectKey(0, 1), next, 1)]
  {
    var p, es := Example([OBJECT_LIST], next), ThenError(retry) + [Next, Send];
    OpeningRuns(p, retry);
    var u := After(p, Worlds(p)[5], es[5]);
    var v := After(p, u, Next);
    assert u.s == Begin(p).s.(index := 1, walking := true, element := 1, length := 2, phase := NextObject);
    assert v.s == State(ObjectKey(0, 1), 0, 0, true, 1, 2, false, Requesting);
    RunThrough(p, Worlds(p) + [u, v, After(p, v, Send)], es);
  }
}
