/** Listing what a YAML text writes, by one loop over the parser's events (`defender/_yaml.py`).

    The loop keeps a stack of open collections and a depth inside a collection used as a mapping
    key. The reference is the plain recursive walk of the node trees the events came from. */
module YamlLocations {
  import opened Options

  /** A node as written. An entry's key may itself be a collection. */
  datatype Node =
    | Scalar(text: string)
    | Alias
    | Sequence(items: seq<Node>)
    | Mapping(entries: seq<Entry>)

  datatype Entry = Entry(key: Node, value: Node)

  /** The parser's events. `Other` is a stream or document mark. */
  datatype Event =
    | ScalarEvent(value: string)
    | AliasEvent
    | SequenceStart
    | SequenceEnd
    | MappingStart
    | MappingEnd
    | Other

  type Path = seq<string>

  datatype Location = Location(path: Path, scalar: Option<string>)

  const ITEM := "[]"
  const UNNAMED_KEY := "?"

  // ---------------------------------------------------------------- what the parser emits

  function Events(n: Node): seq<Event>
    decreases n, 1
  {
    match n
    case Scalar(t) => [ScalarEvent(t)]
    case Alias => [AliasEvent]
    case Sequence(items) => [SequenceStart] + ItemEvents(items) + [SequenceEnd]
    case Mapping(entries) => [MappingStart] + EntryEvents(entries) + [MappingEnd]
  }

  function ItemEvents(items: seq<Node>): seq<Event>
    decreases items, 0
  {
    if items == [] then [] else Events(items[0]) + ItemEvents(items[1..])
  }

  function EntryEvents(entries: seq<Entry>): seq<Event>
    decreases entries, 0
  {
    if entries == [] then [] else
      var e := entries[0];
      assert entries decreases to e;
      Events(e.key) + Events(e.value) + EntryEvents(entries[1..])
  }

  /** A whole stream: each document between its marks. */
  function DocumentEvents(documents: seq<Node>): seq<Event> {
    if documents == [] then [] else
      [Other] + Events(documents[0]) + [Other] + DocumentEvents(documents[1..])
  }

  function StreamEvents(documents: seq<Node>): seq<Event> {
    [Other] + DocumentEvents(documents) + [Other]
  }

  // ---------------------------------------------------------------- the recursive reference

  function KeyName(key: Node): string {
    if key.Scalar? then key.text else UNNAMED_KEY
  }

  function Listing(n: Node, path: Path): seq<Location>
    decreases n, 1
  {
    match n
    case Scalar(t) => [Location(path, Some(t))]
    case Alias => [Location(path, None)]
    case Sequence(items) => [Location(path, None)] + ItemListing(items, path)
    case Mapping(entries) => [Location(path, None)] + EntryListing(entries, path)
  }

  function ItemListing(items: seq<Node>, path: Path): seq<Location>
    decreases items, 0
  {
    if items == [] then [] else Listing(items[0], path + [ITEM]) + ItemListing(items[1..], path)
  }

  function EntryListing(entries: seq<Entry>, path: Path): seq<Location>
    decreases entries, 0
  {
    if entries == [] then [] else
      var e := entries[0];
      assert entries decreases to e;
      Listing(e.value, path + [KeyName(e.key)]) + EntryListing(entries[1..], path)
  }

  function StreamListing(documents: seq<Node>): seq<Location> {
    if documents == [] then [] else Listing(documents[0], []) + StreamListing(documents[1..])
  }

  // ---------------------------------------------------------------- the event automaton

  datatype Frame = Frame(isMapping: bool, path: Path, key: Option<string>)

  datatype State = State(stack: seq<Frame>, insideKey: nat, found: seq<Location>)

  const START := State([], 0, [])

  predicate Opens(e: Event) { e.SequenceStart? || e.MappingStart? }

  predicate Closes(e: Event) { e.SequenceEnd? || e.MappingEnd? }

  /** The path of the node starting now; `None` when it is a mapping key. */
  function At(stack: seq<Frame>): Option<Path> {
    if stack == [] then Some([]) else
      var top := stack[|stack| - 1];
      if !top.isMapping then Some(top.path + [ITEM])
      else if top.key.None? then None
      else Some(top.path + [top.key.value])
  }

  function WithKey(stack: seq<Frame>, key: Option<string>): seq<Frame>
    requires stack != []
  {
    stack[..|stack| - 1] + [stack[|stack| - 1].(key := key)]
  }

  /** A whole value ended: its mapping awaits the next key. */
  function Ended(stack: seq<Frame>): seq<Frame> {
    if stack != [] && stack[|stack| - 1].isMapping then WithKey(stack, None) else stack
  }

  function ScalarOf(e: Event): Option<string> {
    if e.ScalarEvent? then Some(e.value) else None
  }

  /** One event; `None` is the loop failing on a close with nothing open. */
  function Step(s: State, e: Event): Option<State> {
    if s.insideKey > 0 then
      var depth := if Opens(e) then s.insideKey + 1 else if Closes(e) then s.insideKey - 1 else s.insideKey;
      if depth > 0 then Some(s.(insideKey := depth))
      else if s.stack == [] then None
      else Some(s.(insideKey := 0, stack := WithKey(s.stack, Some(UNNAMED_KEY))))
    else if e.Other? then Some(s)
    else if Closes(e) then
      if s.stack == [] then None else Some(s.(stack := Ended(s.stack[..|s.stack| - 1])))
    else
      match At(s.stack)
      case None =>
        if Opens(e) then Some(s.(insideKey := 1))
        else Some(s.(stack := WithKey(s.stack, Some(if e.ScalarEvent? then e.value else UNNAMED_KEY))))
      case Some(path) =>
        var found := s.found + [Location(path, ScalarOf(e))];
        if Opens(e) then Some(s.(found := found, stack := s.stack + [Frame(e.MappingStart?, path, None)]))
        else Some(s.(found := found, stack := Ended(s.stack)))
  }

  function Run(s: State, events: seq<Event>): Option<State>
    decreases |events|
  {
    if events == [] then Some(s) else
      var next := Step(s, events[0]);
      if next.None? then None else Run(next.value, events[1..])
  }

  lemma {:induction false} RunConcat(s: State, a: seq<Event>, b: seq<Event>)
    ensures Run(s, a + b) == var mid := Run(s, a); if mid.None? then None else Run(mid.value, b)
    decreases |a|
  {
    if a == [] {
      assert a + b == b;
    } else {
      assert (a + b)[0] == a[0] && (a + b)[1..] == a[1..] + b;
      var next := Step(s, a[0]);
      if next.Some? { RunConcat(next.value, a[1..], b); }
    }
  }

  lemma RunNothing(s: State)
    ensures Run(s, []) == Some(s)
  {
  }

  lemma RunOne(s: State, e: Event)
    ensures Run(s, [e]) == Step(s, e)
  {
    assert [e][1..] == [];
    var next := Step(s, e);
    if next.Some? { assert Run(next.value, []) == next; }
  }

  /** Both at once: the shape every structural lemma below uses. */
  lemma RunThen(s: State, a: seq<Event>, mid: State, b: seq<Event>)
    requires Run(s, a) == Some(mid)
    ensures Run(s, a + b) == Run(mid, b)
  {
    RunConcat(s, a, b);
  }

  /** Inside a collection used as a key nothing is listed and the depth comes back. */
  lemma {:induction false} KeyPartIsSkipped(s: State, n: Node)
    requires s.insideKey > 0
    ensures Run(s, Events(n)) == Some(s)
    decreases n, 1
  {
    hide Run;
    match n
    case Scalar(t) => RunOne(s, ScalarEvent(t));
    case Alias => RunOne(s, AliasEvent);
    case Sequence(items) =>
      var deep := s.(insideKey := s.insideKey + 1);
      RunOne(s, SequenceStart);
      KeyItemsAreSkipped(deep, items);
      RunThen(s, [SequenceStart], deep, ItemEvents(items));
      RunOne(deep, SequenceEnd);
      RunThen(s, [SequenceStart] + ItemEvents(items), deep, [SequenceEnd]);
    case Mapping(entries) =>
      var deep := s.(insideKey := s.insideKey + 1);
      RunOne(s, MappingStart);
      KeyEntriesAreSkipped(deep, entries);
      RunThen(s, [MappingStart], deep, EntryEvents(entries));
      RunOne(deep, MappingEnd);
      RunThen(s, [MappingStart] + EntryEvents(entries), deep, [MappingEnd]);
  }

  lemma {:induction false} KeyItemsAreSkipped(s: State, items: seq<Node>)
    requires s.insideKey > 0
    ensures Run(s, ItemEvents(items)) == Some(s)
    decreases items, 0
  {
    hide Run, Step, Events;
    RunNothing(s);
    if items != [] {
      KeyPartIsSkipped(s, items[0]);
      KeyItemsAreSkipped(s, items[1..]);
      RunThen(s, Events(items[0]), s, ItemEvents(items[1..]));
    }
  }

  lemma {:induction false} KeyEntriesAreSkipped(s: State, entries: seq<Entry>)
    requires s.insideKey > 0
    ensures Run(s, EntryEvents(entries)) == Some(s)
    decreases entries, 0
  {
    hide Run, Step, Events;
    RunNothing(s);
    if entries != [] {
      var e := entries[0];
      assert entries decreases to e;
      KeyPartIsSkipped(s, e.key);
      KeyPartIsSkipped(s, e.value);
      KeyEntriesAreSkipped(s, entries[1..]);
      RunThen(s, Events(e.key), s, Events(e.value));
      RunThen(s, Events(e.key) + Events(e.value), s, EntryEvents(entries[1..]));
    }
  }

  /** A key lists nothing and leaves its name, whatever it is. */
  lemma KeyIsNamed(s: State, key: Node)
    requires s.insideKey == 0 && At(s.stack).None?
    ensures Run(s, Events(key)) == Some(s.(stack := WithKey(s.stack, Some(KeyName(key)))))
  {
    hide Run;
    var inside := s.(insideKey := 1);
    match key
    case Scalar(t) => RunOne(s, ScalarEvent(t));
    case Alias => RunOne(s, AliasEvent);
    case Sequence(items) =>
      RunOne(s, SequenceStart);
      KeyItemsAreSkipped(inside, items);
      RunThen(s, [SequenceStart], inside, ItemEvents(items));
      RunOne(inside, SequenceEnd);
      RunThen(s, [SequenceStart] + ItemEvents(items), inside, [SequenceEnd]);
    case Mapping(entries) =>
      RunOne(s, MappingStart);
      KeyEntriesAreSkipped(inside, entries);
      RunThen(s, [MappingStart], inside, EntryEvents(entries));
      RunOne(inside, MappingEnd);
      RunThen(s, [MappingStart] + EntryEvents(entries), inside, [MappingEnd]);
  }

  /** A node in value position lists exactly its recursive listing. */
  lemma {:induction false} ValueIsListed(s: State, n: Node, path: Path)
    requires s.insideKey == 0 && At(s.stack) == Some(path)
    ensures Run(s, Events(n)) == Some(s.(stack := Ended(s.stack), found := s.found + Listing(n, path)))
    decreases n, 1
  {
    hide Run;
    match n
    case Scalar(t) => RunOne(s, ScalarEvent(t));
    case Alias => RunOne(s, AliasEvent);
    case Sequence(items) =>
      var open := Frame(false, path, None);
      var inner := State(s.stack + [open], 0, s.found + [Location(path, None)]);
      var full := inner.(found := inner.found + ItemListing(items, path));
      RunOne(s, SequenceStart);
      ItemsAreListed(inner, items, path);
      RunThen(s, [SequenceStart], inner, ItemEvents(items));
      RunOne(full, SequenceEnd);
      RunThen(s, [SequenceStart] + ItemEvents(items), full, [SequenceEnd]);
      assert (s.stack + [open])[..|s.stack|] == s.stack;
      assert full.found == s.found + Listing(n, path);
    case Mapping(entries) =>
      var open := Frame(true, path, None);
      var inner := State(s.stack + [open], 0, s.found + [Location(path, None)]);
      var full := inner.(found := inner.found + EntryListing(entries, path));
      RunOne(s, MappingStart);
      EntriesAreListed(inner, entries, path);
      RunThen(s, [MappingStart], inner, EntryEvents(entries));
      RunOne(full, MappingEnd);
      RunThen(s, [MappingStart] + EntryEvents(entries), full, [MappingEnd]);
      assert (s.stack + [open])[..|s.stack|] == s.stack;
      assert full.found == s.found + Listing(n, path);
  }

  lemma {:induction false} ItemsAreListed(s: State, items: seq<Node>, path: Path)
    requires s.insideKey == 0 && s.stack != []
    requires s.stack[|s.stack| - 1] == Frame(false, path, None)
    ensures Run(s, ItemEvents(items)) == Some(s.(found := s.found + ItemListing(items, path)))
    decreases items, 0
  {
    hide Run, Step, Events, Listing;
    if items == [] {
      RunNothing(s);
      assert s.found + [] == s.found;
    } else {
      var mid := s.(found := s.found + Listing(items[0], path + [ITEM]));
      ValueIsListed(s, items[0], path + [ITEM]);
      ItemsAreListed(mid, items[1..], path);
      RunThen(s, Events(items[0]), mid, ItemEvents(items[1..]));
      assert mid.found + ItemListing(items[1..], path) == s.found + ItemListing(items, path);
    }
  }

  lemma {:induction false} EntryIsListed(s: State, e: Entry, path: Path)
    requires s.insideKey == 0 && s.stack != []
    requires s.stack[|s.stack| - 1] == Frame(true, path, None)
    ensures Run(s, Events(e.key) + Events(e.value)) ==
            Some(s.(found := s.found + Listing(e.value, path + [KeyName(e.key)])))
    decreases e, 2
  {
    hide Run, Step, Events, Listing;
    var keyed := s.(stack := WithKey(s.stack, Some(KeyName(e.key))));
    KeyIsNamed(s, e.key);
    ValueIsListed(keyed, e.value, path + [KeyName(e.key)]);
    assert Ended(keyed.stack) == s.stack;
    RunThen(s, Events(e.key), keyed, Events(e.value));
  }

  lemma {:induction false} EntriesAreListed(s: State, entries: seq<Entry>, path: Path)
    requires s.insideKey == 0 && s.stack != []
    requires s.stack[|s.stack| - 1] == Frame(true, path, None)
    ensures Run(s, EntryEvents(entries)) == Some(s.(found := s.found + EntryListing(entries, path)))
    decreases entries, 0
  {
    hide Run, Step, Events, Listing;
    if entries == [] {
      RunNothing(s);
      assert s.found + [] == s.found;
    } else {
      var e := entries[0];
      assert entries decreases to e;
      var mid := s.(found := s.found + Listing(e.value, path + [KeyName(e.key)]));
      EntryIsListed(s, e, path);
      EntriesAreListed(mid, entries[1..], path);
      RunThen(s, Events(e.key) + Events(e.value), mid, EntryEvents(entries[1..]));
      assert mid.found + EntryListing(entries[1..], path) == s.found + EntryListing(entries, path);
    }
  }

  lemma {:induction false} DocumentsAreListed(found: seq<Location>, documents: seq<Node>)
    ensures Run(State([], 0, found), DocumentEvents(documents)) ==
            Some(State([], 0, found + StreamListing(documents)))
    decreases |documents|
  {
    hide Run, Events, Listing;
    var s := State([], 0, found);
    if documents == [] {
      RunNothing(s);
      assert found + [] == found;
    } else {
      var d := documents[0];
      var mid := State([], 0, found + Listing(d, []));
      RunOne(s, Other);
      ValueIsListed(s, d, []);
      RunThen(s, [Other], s, Events(d));
      RunOne(mid, Other);
      RunThen(s, [Other] + Events(d), mid, [Other]);
      DocumentsAreListed(mid.found, documents[1..]);
      RunThen(s, [Other] + Events(d) + [Other], mid, DocumentEvents(documents[1..]));
      assert mid.found + StreamListing(documents[1..]) == found + StreamListing(documents);
    }
  }

  /** On a whole stream the automaton ends with every collection closed and exactly the listing. */
  lemma StreamIsListed(documents: seq<Node>)
    ensures Run(START, StreamEvents(documents)) == Some(State([], 0, StreamListing(documents)))
  {
    hide Run;
    var end := State([], 0, StreamListing(documents));
    RunOne(START, Other);
    DocumentsAreListed([], documents);
    assert [] + StreamListing(documents) == StreamListing(documents);
    RunThen(START, [Other], START, DocumentEvents(documents));
    RunOne(end, Other);
    RunThen(START, [Other] + DocumentEvents(documents), end, [Other]);
  }

  /** The listing only grows, so a run cut short has listed a prefix. */
  lemma {:induction false} FoundGrows(s: State, events: seq<Event>)
    requires Run(s, events).Some?
    ensures s.found <= Run(s, events).value.found
    decreases |events|
  {
    if events != [] { FoundGrows(Step(s, events[0]).value, events[1..]); }
  }

  /** A parse error anywhere: no failure, and what was listed is a prefix of the whole listing. */
  lemma CutStreamListsAPrefix(documents: seq<Node>, events: seq<Event>)
    requires events <= StreamEvents(documents)
    ensures Run(START, events).Some? && Run(START, events).value.found <= StreamListing(documents)
  {
    var rest := StreamEvents(documents)[|events|..];
    assert StreamEvents(documents) == events + rest;
    StreamIsListed(documents);
    RunConcat(START, events, rest);
    FoundGrows(Run(START, events).value, rest);
  }

  // ---------------------------------------------------------------- the loop itself

  /** `written_locations`: the event loop. `None` is the loop failing on a close with nothing
      open, which no parser's events reach. */
  method WrittenLocations(events: seq<Event>) returns (found: Option<seq<Location>>)
    ensures found == var end := Run(START, events); if end.None? then None else Some(end.value.found)
    ensures forall documents | events == StreamEvents(documents) :: found == Some(StreamListing(documents))
    ensures forall documents | events <= StreamEvents(documents) ::
              found.Some? && found.value <= StreamListing(documents)
  {
    var stack: seq<Frame>, insideKey: nat, listed: seq<Location> := [], 0, [];
    var i, failed := 0, false;
    assert events[0..] == events;
    while i < |events| && !failed
      invariant 0 <= i <= |events|
      invariant if failed then Run(START, events).None? else
                  Run(START, events) == Run(State(stack, insideKey, listed), events[i..])
    {
      var event := events[i];
      assert events[i..][0] == event && events[i..][1..] == events[i + 1..];
      i := i + 1;
      if insideKey > 0 {
        if Opens(event) {
          insideKey := insideKey + 1;
        } else if Closes(event) {
          insideKey := insideKey - 1;
        }
        if insideKey == 0 {
          if stack == [] {
            failed := true;
          } else {
            stack := WithKey(stack, Some(UNNAMED_KEY));
          }
        }
        continue;
      }
      if event.Other? { continue; }
      if Closes(event) {
        if stack == [] {
          failed := true;
        } else {
          stack := Ended(stack[..|stack| - 1]);
        }
        continue;
      }
      var path := At(stack);
      if path.None? {
        if Opens(event) {
          insideKey := 1;
        } else {
          stack := WithKey(stack, Some(if event.ScalarEvent? then event.value else UNNAMED_KEY));
        }
        continue;
      }
      listed := listed + [Location(path.value, ScalarOf(event))];
      if Opens(event) {
        stack := stack + [Frame(event.MappingStart?, path.value, None)];
      } else {
        stack := Ended(stack);
      }
    }
    found := if failed then None else Some(listed);
    forall documents | events == StreamEvents(documents)
      ensures found == Some(StreamListing(documents))
    {
      StreamIsListed(documents);
    }
    forall documents | events <= StreamEvents(documents)
      ensures found.Some? && found.value <= StreamListing(documents)
    {
      CutStreamListsAPrefix(documents, events);
    }
  }
}
