/** The segment-trie path router, proved to select the operation a scan over all
    declared operations would select. */
module Router {
  import opened Basics
  import Text

  datatype Matcher = Literal(text: string) | Param(name: string)

  datatype Entry = Entry(httpMethod: string, index: nat)

  datatype Node = Node(children: seq<Edge>, operations: seq<Entry>)

  datatype Edge = Edge(segment: Matcher, child: Node)

  datatype Operation = Operation(httpMethod: string, template: string)

  const EMPTY_NODE: Node := Node([], [])

  // ---------------------------------------------------------------------------
  // Segments
  // ---------------------------------------------------------------------------

  function NonEmpty(parts: seq<string>): seq<string> {
    if parts == [] then []
    else (if parts[0] == "" then [] else [parts[0]]) + NonEmpty(parts[1..])
  }

  function SplitPath(path: string): seq<string> {
    NonEmpty(Text.Split(Text.TrimEnd(Text.TrimStart(path, '/'), '/'), '/'))
  }

  function ParseSegment(s: string): Matcher {
    if |s| > 2 && s[0] == '{' && s[|s| - 1] == '}' then Param(s[1..|s| - 1]) else Literal(s)
  }

  /** A segment is a parameter exactly when braces enclose a name. */
  lemma {:induction false} ParseSegmentMeaning(segment: string, name: string)
    ensures ParseSegment(segment) == Param(name) <==> name != "" && segment == "{" + name + "}"
    ensures ParseSegment(segment).Literal? ==> ParseSegment(segment) == Literal(segment)
  {
    if segment == "{" + name + "}" {
      assert segment[1..|segment| - 1] == name;
    }
  }

  function ParseAll(parts: seq<string>): (segments: seq<Matcher>)
    ensures |segments| == |parts|
    ensures forall i :: 0 <= i < |parts| ==> segments[i] == ParseSegment(parts[i])
  {
    if parts == [] then [] else [ParseSegment(parts[0])] + ParseAll(parts[1..])
  }

  function ParseSegments(template: string): seq<Matcher> {
    ParseAll(SplitPath(template))
  }

  // ---------------------------------------------------------------------------
  // Building the trie
  // ---------------------------------------------------------------------------

  function Insert(node: Node, segments: seq<Matcher>, entry: Entry): Node
    decreases |segments|, 0
  {
    if segments == [] then node.(operations := node.operations + [entry])
    else node.(children := InsertEdge(node.children, segments, entry))
  }

  /** Descend the edge carrying this very matcher, or append a new one. */
  function InsertEdge(edges: seq<Edge>, segments: seq<Matcher>, entry: Entry): seq<Edge>
    requires segments != []
    decreases |segments| - 1, 1, |edges|
  {
    if edges == [] then [Edge(segments[0], Insert(EMPTY_NODE, segments[1..], entry))]
    else if edges[0].segment == segments[0] then
      [Edge(segments[0], Insert(edges[0].child, segments[1..], entry))] + edges[1..]
    else [edges[0]] + InsertEdge(edges[1..], segments, entry)
  }

  /** One declared operation as the trie sees it. */
  datatype Item = Item(segments: seq<Matcher>, entry: Entry)

  function Items(operations: seq<Operation>): (items: seq<Item>)
    ensures |items| == |operations|
    ensures forall i :: 0 <= i < |items| ==>
              items[i] == Item(ParseSegments(operations[i].template), Entry(operations[i].httpMethod, i))
  {
    if operations == [] then []
    else
      var last := |operations| - 1;
      Items(operations[..last])
      + [Item(ParseSegments(operations[last].template), Entry(operations[last].httpMethod, last))]
  }

  function Build(items: seq<Item>): Node {
    if items == [] then EMPTY_NODE
    else
      var last := items[|items| - 1];
      Insert(Build(items[..|items| - 1]), last.segments, last.entry)
  }

  // ---------------------------------------------------------------------------
  // The shape of the trie, read off the declarations
  // ---------------------------------------------------------------------------

  /** Operations declared exactly here, in declaration order. */
  function Terminals(items: seq<Item>): seq<Entry> {
    if items == [] then []
    else
      var last := items[|items| - 1];
      Terminals(items[..|items| - 1]) + (if last.segments == [] then [last.entry] else [])
  }

  /** The items continuing behind `head`, with that segment removed. */
  function Tails(items: seq<Item>, head: Matcher): seq<Item> {
    if items == [] then []
    else
      var last := items[|items| - 1];
      Tails(items[..|items| - 1], head)
      + (if last.segments != [] && last.segments[0] == head then [Item(last.segments[1..], last.entry)] else [])
  }

  /** First segments in order of first declaration. */
  function Heads(items: seq<Item>): seq<Matcher> {
    if items == [] then []
    else
      var last, heads := items[|items| - 1], Heads(items[..|items| - 1]);
      if last.segments == [] || last.segments[0] in heads then heads else heads + [last.segments[0]]
  }

  ghost predicate Shaped(node: Node, items: seq<Item>) {
    && node.operations == Terminals(items)
    && |node.children| == |Heads(items)|
    && forall i :: 0 <= i < |node.children| ==>
         node.children[i] == Edge(Heads(items)[i], Build(Tails(items, Heads(items)[i])))
  }

  lemma {:induction false} HeadsDistinct(items: seq<Item>)
    ensures forall i, j :: 0 <= i < j < |Heads(items)| ==> Heads(items)[i] != Heads(items)[j]
  {
    if items != [] {
      HeadsDistinct(items[..|items| - 1]);
    }
  }

  lemma {:induction false} NoTails(items: seq<Item>, head: Matcher)
    requires head !in Heads(items)
    ensures Tails(items, head) == []
  {
    if items != [] {
      NoTails(items[..|items| - 1], head);
    }
  }

  /** Inserting touches the first edge that carries the head, or appends one. */
  lemma {:induction false} InsertEdgeAt(edges: seq<Edge>, segments: seq<Matcher>, entry: Entry, k: nat)
    requires segments != [] && k <= |edges|
    requires forall i :: 0 <= i < k ==> edges[i].segment != segments[0]
    requires k < |edges| ==> edges[k].segment == segments[0]
    ensures InsertEdge(edges, segments, entry)
         == if k == |edges| then edges + [Edge(segments[0], Insert(EMPTY_NODE, segments[1..], entry))]
            else edges[k := Edge(segments[0], Insert(edges[k].child, segments[1..], entry))]
    decreases |edges|
  {
    if edges != [] && k > 0 {
      InsertEdgeAt(edges[1..], segments, entry, k - 1);
    }
  }

  function Position(heads: seq<Matcher>, head: Matcher): (k: nat)
    ensures k <= |heads|
    ensures forall i :: 0 <= i < k ==> heads[i] != head
    ensures k < |heads| ==> heads[k] == head
    ensures k == |heads| <==> head !in heads
  {
    if heads == [] || heads[0] == head then 0 else 1 + Position(heads[1..], head)
  }

  /** The trie of any declarations: at each node, the operations declared there and one
      edge per distinct next segment, in order of first declaration. */
  lemma {:induction false} BuildShape(items: seq<Item>)
    ensures Shaped(Build(items), items)
    decreases |items|
  {
    if items != [] {
      var front, last := items[..|items| - 1], items[|items| - 1];
      BuildShape(front);
      if last.segments == [] {
        forall i | 0 <= i < |Heads(items)| ensures Tails(items, Heads(items)[i]) == Tails(front, Heads(items)[i]) {
        }
      } else {
        ShapeAfterInsert(front, last);
        assert front + [last] == items;
      }
    }
  }

  lemma {:induction false} TailsSnoc(front: seq<Item>, last: Item, head: Matcher)
    ensures Tails(front + [last], head)
         == Tails(front, head)
            + (if last.segments != [] && last.segments[0] == head then [Item(last.segments[1..], last.entry)] else [])
  {
    assert (front + [last])[..|front|] == front;
  }

  lemma {:induction false} HeadsSnoc(front: seq<Item>, last: Item)
    requires last.segments != []
    ensures Heads(front + [last])
         == if last.segments[0] in Heads(front) then Heads(front) else Heads(front) + [last.segments[0]]
  {
    assert (front + [last])[..|front|] == front;
  }

  lemma {:induction false} TerminalsSnoc(front: seq<Item>, last: Item)
    requires last.segments != []
    ensures Terminals(front + [last]) == Terminals(front)
  {
    assert (front + [last])[..|front|] == front;
  }

  /** The child behind `head` after inserting an item, given the one before. */
  lemma {:induction false} ChildAfterInsert(front: seq<Item>, last: Item, head: Matcher)
    requires last.segments != []
    ensures Build(Tails(front + [last], head))
         == if last.segments[0] == head then Insert(Build(Tails(front, head)), last.segments[1..], last.entry)
            else Build(Tails(front, head))
  {
    TailsSnoc(front, last, head);
    if last.segments[0] == head {
      BuildSnoc(Tails(front, head), Item(last.segments[1..], last.entry));
    } else {
      assert Tails(front, head) + [] == Tails(front, head);
    }
  }

  /** The children after inserting an item: one is replaced, or one is appended. */
  lemma {:induction false} ChildrenAfterInsert(front: seq<Item>, last: Item, k: nat)
    requires last.segments != [] && Shaped(Build(front), front) && k == Position(Heads(front), last.segments[0])
    ensures
      var before, now := Build(front).children, Build(front + [last]).children;
      var head := last.segments[0];
      now == if k == |before| then before + [Edge(head, Insert(EMPTY_NODE, last.segments[1..], last.entry))]
             else before[k := Edge(head, Insert(before[k].child, last.segments[1..], last.entry))]
    ensures Build(front + [last]).operations == Build(front).operations
  {
    BuildSnoc(front, last);
    InsertEdgeAt(Build(front).children, last.segments, last.entry, k);
  }

  lemma {:induction false} EdgeAfterInsert(front: seq<Item>, last: Item, i: nat)
    requires last.segments != [] && Shaped(Build(front), front)
    requires i < |Heads(front + [last])| == |Build(front + [last]).children|
    ensures
      var items := front + [last];
      Build(items).children[i] == Edge(Heads(items)[i], Build(Tails(items, Heads(items)[i])))
  {
    var head := last.segments[0];
    var k := Position(Heads(front), head);
    HeadsSnoc(front, last);
    HeadsDistinct(front);
    ChildrenAfterInsert(front, last, k);
    ChildAfterInsert(front, last, Heads(front + [last])[i]);
    if k == |Heads(front)| {
      NoTails(front, head);
      assert Build([]) == EMPTY_NODE;
    }
  }

  lemma {:induction false} ShapeAfterInsert(front: seq<Item>, last: Item)
    requires last.segments != [] && Shaped(Build(front), front)
    ensures Shaped(Build(front + [last]), front + [last])
  {
    var items := front + [last];
    TerminalsSnoc(front, last);
    HeadsSnoc(front, last);
    ChildrenAfterInsert(front, last, Position(Heads(front), last.segments[0]));
    forall i | 0 <= i < |Heads(items)|
      ensures Build(items).children[i] == Edge(Heads(items)[i], Build(Tails(items, Heads(items)[i])))
    {
      EdgeAfterInsert(front, last, i);
    }
  }

  lemma {:induction false} BuildSnoc(items: seq<Item>, last: Item)
    ensures Build(items + [last]) == Insert(Build(items), last.segments, last.entry)
  {
    assert (items + [last])[..|items|] == items;
  }

  // ---------------------------------------------------------------------------
  // The walk
  // ---------------------------------------------------------------------------

  predicate HasMethod(entries: seq<Entry>, httpMethod: string) {
    exists i :: 0 <= i < |entries| && entries[i].httpMethod == httpMethod
  }

  /** The template a walk settles on, and the node it ends at. */
  datatype Choice = Choice(segments: seq<Matcher>, node: Node)

  function Choose(node: Node, path: seq<string>, httpMethod: string): Option<Choice>
    decreases |path|, 1, 0
  {
    if path == [] then
      if HasMethod(node.operations, httpMethod) then Some(Choice([], node)) else None
    else
      match ChooseEdge(node.children, path, httpMethod, true)
      case Some(choice) => Some(choice)
      case None => ChooseEdge(node.children, path, httpMethod, false)
  }

  predicate Follows(edge: Edge, head: string, literals: bool) {
    if literals then edge.segment == Literal(head) else edge.segment.Param?
  }

  /** The first edge of one kind behind which the rest of the path can be matched. */
  function ChooseEdge(edges: seq<Edge>, path: seq<string>, httpMethod: string, literals: bool): Option<Choice>
    requires path != []
    decreases |path|, 0, |edges|
  {
    if edges == [] then None
    else
      var inner := if Follows(edges[0], path[0], literals) then Choose(edges[0].child, path[1..], httpMethod) else None;
      match inner
      case Some(choice) => Some(Choice([edges[0].segment] + choice.segments, choice.node))
      case None => ChooseEdge(edges[1..], path, httpMethod, literals)
  }

  predicate Matches(segments: seq<Matcher>, path: seq<string>) {
    && |segments| == |path|
    && forall i :: 0 <= i < |path| && segments[i].Literal? ==> segments[i].text == path[i]
  }

  /** The parameters a template binds on a path; a repeated name keeps its last value. */
  function Bind(params: map<string, string>, segments: seq<Matcher>, path: seq<string>): map<string, string>
    requires |segments| == |path|
    decreases |segments|
  {
    if segments == [] then params
    else
      var params' := if segments[0].Param? then params[segments[0].name := path[0]] else params;
      Bind(params', segments[1..], path[1..])
  }

  datatype Hit = Hit(node: Node, params: map<string, string>)

  function Outcome(choice: Option<Choice>, params: map<string, string>, path: seq<string>): Option<Hit>
    requires choice.Some? ==> |choice.value.segments| == |path|
  {
    match choice
    case None => None
    case Some(Choice(segments, node)) => Some(Hit(node, Bind(params, segments, path)))
  }

  lemma {:induction false} ChoiceMatches(node: Node, path: seq<string>, httpMethod: string)
    ensures Choose(node, path, httpMethod).Some? ==> Matches(Choose(node, path, httpMethod).value.segments, path)
    decreases |path|, 1, 0
  {
    if path != [] {
      EdgeChoiceMatches(node.children, path, httpMethod, true);
      EdgeChoiceMatches(node.children, path, httpMethod, false);
    }
  }

  lemma {:induction false} EdgeChoiceMatches(edges: seq<Edge>, path: seq<string>, httpMethod: string, literals: bool)
    requires path != []
    ensures
      var choice := ChooseEdge(edges, path, httpMethod, literals);
      choice.Some? ==> Matches(choice.value.segments, path)
    decreases |path|, 0, |edges|
  {
    if edges != [] {
      ChoiceMatches(edges[0].child, path[1..], httpMethod);
      EdgeChoiceMatches(edges[1..], path, httpMethod, literals);
    }
  }

  /** The recursive walk with its two loops over the edges, extending the parameter map
      only along the branch that succeeds. */
  method Walk(node: Node, path: seq<string>, params: map<string, string>, httpMethod: string) returns (hit: Option<Hit>)
    ensures Choose(node, path, httpMethod).Some? ==> |Choose(node, path, httpMethod).value.segments| == |path|
    ensures hit == Outcome(Choose(node, path, httpMethod), params, path)
    decreases |path|, 1
  {
    ChoiceMatches(node, path, httpMethod);
    if path == [] {
      return if HasMethod(node.operations, httpMethod) then Some(Hit(node, params)) else None;
    }
    hit := WalkEdges(node.children, path, params, httpMethod, true);
    if hit.None? {
      hit := WalkEdges(node.children, path, params, httpMethod, false);
    }
  }

  method WalkEdges(edges: seq<Edge>, path: seq<string>, params: map<string, string>, httpMethod: string, literals: bool)
    returns (hit: Option<Hit>)
    requires path != []
    ensures
      var choice := ChooseEdge(edges, path, httpMethod, literals);
      && (choice.Some? ==> |choice.value.segments| == |path|)
      && hit == Outcome(choice, params, path)
    decreases |path|, 0
  {
    EdgeChoiceMatches(edges, path, httpMethod, literals);
    for i := 0 to |edges|
      invariant ChooseEdge(edges, path, httpMethod, literals) == ChooseEdge(edges[i..], path, httpMethod, literals)
    {
      var edge, rest := edges[i], edges[i..];
      assert rest[0] == edge && rest[1..] == edges[i + 1..];
      if Follows(edge, path[0], literals) {
        var candidate := if edge.segment.Param? then params[edge.segment.name := path[0]] else params;
        hit := Walk(edge.child, path[1..], candidate, httpMethod);
        if hit.Some? {
          ghost var inner := Choose(edge.child, path[1..], httpMethod).value.segments;
          assert ([edge.segment] + inner)[1..] == inner;
          return;
        }
      }
    }
    hit := None;
  }

  // ---------------------------------------------------------------------------
  // What the walk selects
  // ---------------------------------------------------------------------------

  predicate Candidate(item: Item, path: seq<string>, httpMethod: string) {
    item.entry.httpMethod == httpMethod && Matches(item.segments, path)
  }

  /** `a` is preferred to `b`: at the first segment where they differ, `a` has a literal
      facing a parameter, or both are parameters and `a`'s was declared first among the
      templates sharing the segments so far. */
  predicate Preferred(items: seq<Item>, a: seq<Matcher>, b: seq<Matcher>)
    requires |a| == |b|
    decreases |a|
  {
    a != [] &&
    if a[0] == b[0] then Preferred(Tails(items, a[0]), a[1..], b[1..])
    else
      || (a[0].Literal? && b[0].Param?)
      || (a[0].Param? && b[0].Param? && Position(Heads(items), a[0]) < Position(Heads(items), b[0]))
  }

  /** `segments` is the preferred template among the candidates, and `node` is its node. */
  ghost predicate Selects(items: seq<Item>, path: seq<string>, httpMethod: string, choice: Choice) {
    && Matches(choice.segments, path)
    && choice.node.operations == At(items, choice.segments)
    && HasMethod(choice.node.operations, httpMethod)
    && forall x :: x in items && Candidate(x, path, httpMethod) && x.segments != choice.segments
         ==> Preferred(items, choice.segments, x.segments)
  }

  /** Operations declared with exactly these segments, in declaration order. */
  function At(items: seq<Item>, segments: seq<Matcher>): seq<Entry> {
    if items == [] then []
    else
      var last := items[|items| - 1];
      At(items[..|items| - 1], segments) + (if last.segments == segments then [last.entry] else [])
  }

  lemma {:induction false} AtTails(items: seq<Item>, head: Matcher, rest: seq<Matcher>)
    ensures At(Tails(items, head), rest) == At(items, [head] + rest)
    decreases |items|
  {
    if items != [] {
      var front, last := items[..|items| - 1], items[|items| - 1];
      AtTails(front, head, rest);
      if last.segments != [] && last.segments[0] == head {
        var tails := Tails(items, head);
        assert tails[..|tails| - 1] == Tails(front, head);
        assert last.segments == [head] + last.segments[1..];
      } else {
        assert Tails(items, head) == Tails(front, head);
      }
    }
  }

  lemma {:induction false} AtRoot(items: seq<Item>)
    ensures At(items, []) == Terminals(items)
    decreases |items|
  {
    if items != [] {
      AtRoot(items[..|items| - 1]);
    }
  }

  lemma {:induction false} TailsMembers(items: seq<Item>, head: Matcher, x: Item)
    ensures x in Tails(items, head) <==> Item([head] + x.segments, x.entry) in items
    decreases |items|
  {
    if items != [] {
      var front, last := items[..|items| - 1], items[|items| - 1];
      TailsMembers(front, head, x);
      assert items == front + [last];
      if last.segments != [] {
        assert last.segments == [last.segments[0]] + last.segments[1..];
        assert ([head] + x.segments)[1..] == x.segments;
      }
    }
  }

  lemma {:induction false} HeadsMembers(items: seq<Item>, x: Item)
    requires x in items && x.segments != []
    ensures x.segments[0] in Heads(items)
    decreases |items|
  {
    var front, last := items[..|items| - 1], items[|items| - 1];
    assert items == front + [last];
    if x in front {
      HeadsMembers(front, x);
    }
  }

  lemma {:induction false} AtMembers(items: seq<Item>, segments: seq<Matcher>, entry: Entry)
    ensures entry in At(items, segments) <==> Item(segments, entry) in items
    decreases |items|
  {
    if items != [] {
      var front, last := items[..|items| - 1], items[|items| - 1];
      AtMembers(front, segments, entry);
      assert items == front + [last];
    }
  }

  /** Where the scan over one kind of edge stops. */
  lemma {:induction false} FirstEdge(edges: seq<Edge>, path: seq<string>, httpMethod: string, literals: bool)
    returns (k: nat)
    requires path != []
    ensures k <= |edges|
    ensures forall j :: 0 <= j < k && Follows(edges[j], path[0], literals)
              ==> Choose(edges[j].child, path[1..], httpMethod).None?
    ensures k == |edges| <==> ChooseEdge(edges, path, httpMethod, literals).None?
    ensures k < |edges| ==>
              var inner := Choose(edges[k].child, path[1..], httpMethod);
              && Follows(edges[k], path[0], literals) && inner.Some?
              && ChooseEdge(edges, path, httpMethod, literals)
                 == Some(Choice([edges[k].segment] + inner.value.segments, inner.value.node))
    decreases |edges|
  {
    if edges == [] {
      k := 0;
    } else if Follows(edges[0], path[0], literals) && Choose(edges[0].child, path[1..], httpMethod).Some? {
      k := 0;
    } else {
      var k' := FirstEdge(edges[1..], path, httpMethod, literals);
      k := k' + 1;
    }
  }

  ghost predicate SomeCandidate(items: seq<Item>, path: seq<string>, httpMethod: string) {
    exists x :: x in items && Candidate(x, path, httpMethod)
  }

  ghost predicate Correct(items: seq<Item>, path: seq<string>, httpMethod: string) {
    var choice := Choose(Build(items), path, httpMethod);
    && (choice.Some? <==> SomeCandidate(items, path, httpMethod))
    && (choice.Some? ==> Selects(items, path, httpMethod, choice.value))
  }

  /** A candidate seen from the child its first segment leads to. */
  lemma {:induction false} CandidateBehind(items: seq<Item>, x: Item, path: seq<string>, httpMethod: string) returns (k: nat, y: Item)
    requires path != [] && x in items && Candidate(x, path, httpMethod)
    ensures k == Position(Heads(items), x.segments[0]) < |Heads(items)|
    ensures y == Item(x.segments[1..], x.entry)
    ensures y in Tails(items, x.segments[0]) && Candidate(y, path[1..], httpMethod)
  {
    HeadsMembers(items, x);
    k := Position(Heads(items), x.segments[0]);
    y := Item(x.segments[1..], x.entry);
    assert [x.segments[0]] + y.segments == x.segments;
    TailsMembers(items, x.segments[0], y);
  }

  lemma {:induction false} SelectedExists(items: seq<Item>, path: seq<string>, httpMethod: string, choice: Choice)
    requires Selects(items, path, httpMethod, choice)
    ensures SomeCandidate(items, path, httpMethod)
  {
    var entries := choice.node.operations;
    var i :| 0 <= i < |entries| && entries[i].httpMethod == httpMethod;
    AtMembers(items, choice.segments, entries[i]);
    assert entries[i] in entries;
    assert Candidate(Item(choice.segments, entries[i]), path, httpMethod);
  }

  lemma {:induction false} RootCorrect(items: seq<Item>, httpMethod: string)
    ensures Correct(items, [], httpMethod)
  {
    BuildShape(items);
    AtRoot(items);
    var choice := Choose(Build(items), [], httpMethod);
    if choice.Some? {
      assert Selects(items, [], httpMethod, choice.value);
      SelectedExists(items, [], httpMethod, choice.value);
    }
    if SomeCandidate(items, [], httpMethod) {
      var x :| x in items && Candidate(x, [], httpMethod);
      assert x == Item([], x.entry);
      AtMembers(items, [], x.entry);
      var i :| 0 <= i < |At(items, [])| && At(items, [])[i] == x.entry;
    }
  }

  /** The segment could be matched by the path's head. */
  predicate Fits(head: Matcher, path: seq<string>)
    requires path != []
  {
    head == Literal(path[0]) || head.Param?
  }

  /** No edge that would be preferred to edge `k` has a match behind it. */
  ghost predicate BestEdge(items: seq<Item>, path: seq<string>, httpMethod: string, k: nat)
    requires path != [] && k < |Heads(items)|
  {
    && Fits(Heads(items)[k], path)
    && forall j :: 0 <= j < |Heads(items)| && Fits(Heads(items)[j], path)
         && SomeCandidate(Tails(items, Heads(items)[j]), path[1..], httpMethod)
         ==> Heads(items)[k].Literal? || (Heads(items)[j].Param? && k <= j)
  }

  lemma {:induction false} EdgePreferred(items: seq<Item>, path: seq<string>, httpMethod: string, k: nat, rest: seq<Matcher>, x: Item)
    requires path != [] && k < |Heads(items)| && BestEdge(items, path, httpMethod, k) && |rest| == |path| - 1
    requires x in items && Candidate(x, path, httpMethod) && x.segments != [Heads(items)[k]] + rest
    requires forall y :: y in Tails(items, Heads(items)[k]) && Candidate(y, path[1..], httpMethod) && y.segments != rest
               ==> Preferred(Tails(items, Heads(items)[k]), rest, y.segments)
    ensures Preferred(items, [Heads(items)[k]] + rest, x.segments)
  {
    var head := Heads(items)[k];
    var segments := [head] + rest;
    assert segments[0] == head && segments[1..] == rest;
    var j, y := CandidateBehind(items, x, path, httpMethod);
    assert x.segments == [x.segments[0]] + y.segments;
    if x.segments[0] != head {
      HeadsDistinct(items);
      assert Position(Heads(items), head) == k;
      assert Heads(items)[j] == x.segments[0];
      assert SomeCandidate(Tails(items, x.segments[0]), path[1..], httpMethod);
    }
  }

  lemma {:induction false} EdgeSelects(items: seq<Item>, path: seq<string>, httpMethod: string, k: nat, inner: Choice)
    requires path != [] && k < |Heads(items)| && BestEdge(items, path, httpMethod, k)
    requires Selects(Tails(items, Heads(items)[k]), path[1..], httpMethod, inner)
    ensures Selects(items, path, httpMethod, Choice([Heads(items)[k]] + inner.segments, inner.node))
  {
    var head := Heads(items)[k];
    var segments := [head] + inner.segments;
    AtTails(items, head, inner.segments);
    forall x | x in items && Candidate(x, path, httpMethod) && x.segments != segments
      ensures Preferred(items, segments, x.segments)
    {
      EdgePreferred(items, path, httpMethod, k, inner.segments, x);
    }
  }

  /** A walk over the trie of any declarations finds a match exactly when some operation
      of that method matches, and settles on the preferred template. */
  lemma {:induction false} ChooseCorrect(items: seq<Item>, path: seq<string>, httpMethod: string)
    ensures Correct(items, path, httpMethod)
    decreases |path|
  {
    if path == [] {
      RootCorrect(items, httpMethod);
    } else {
      BuildShape(items);
      var heads, edges := Heads(items), Build(items).children;
      forall j | 0 <= j < |heads| ensures Correct(Tails(items, heads[j]), path[1..], httpMethod) {
        ChooseCorrect(Tails(items, heads[j]), path[1..], httpMethod);
      }
      var a := FirstEdge(edges, path, httpMethod, true);
      var b := FirstEdge(edges, path, httpMethod, false);
      var k := if a < |edges| then a else b;
      if k < |edges| {
        var inner := Choose(edges[k].child, path[1..], httpMethod).value;
        assert BestEdge(items, path, httpMethod, k);
        EdgeSelects(items, path, httpMethod, k, inner);
        SelectedExists(items, path, httpMethod, Choice([heads[k]] + inner.segments, inner.node));
      }
      if SomeCandidate(items, path, httpMethod) {
        var x :| x in items && Candidate(x, path, httpMethod);
        var j, y := CandidateBehind(items, x, path, httpMethod);
        assert SomeCandidate(Tails(items, heads[j]), path[1..], httpMethod);
        assert Choose(edges[j].child, path[1..], httpMethod).Some?;
      }
    }
  }

  // ---------------------------------------------------------------------------
  // The router
  // ---------------------------------------------------------------------------

  /** Whether operation `i` answers the request, as a scan would ask it. */
  predicate Answers(operations: seq<Operation>, i: nat, httpMethod: string, path: seq<string>) {
    && i < |operations| && operations[i].httpMethod == httpMethod
    && Matches(ParseSegments(operations[i].template), path)
  }

  /** Operation `i` is the one a scan over all declarations selects: it answers, and every
      other that answers has the same segments and comes later, or is less preferred. */
  ghost predicate Wins(operations: seq<Operation>, i: nat, httpMethod: string, path: seq<string>) {
    && Answers(operations, i, httpMethod, path)
    && forall j: nat :: Answers(operations, j, httpMethod, path) ==>
         var a, b := ParseSegments(operations[i].template), ParseSegments(operations[j].template);
         if a == b then i <= j else Preferred(Items(operations), a, b)
  }

  lemma {:induction false} PreferenceIsStrict(items: seq<Item>, a: seq<Matcher>, b: seq<Matcher>)
    requires |a| == |b| && Preferred(items, a, b)
    ensures a != b && !Preferred(items, b, a)
    decreases |a|
  {
    if a[0] == b[0] {
      PreferenceIsStrict(Tails(items, a[0]), a[1..], b[1..]);
    }
  }

  /** The selected operation is unique, so `Wins` specifies the router completely. */
  lemma {:induction false} WinnerIsUnique(operations: seq<Operation>, i: nat, j: nat, httpMethod: string, path: seq<string>)
    requires Wins(operations, i, httpMethod, path) && Wins(operations, j, httpMethod, path)
    ensures i == j
  {
    var a, b := ParseSegments(operations[i].template), ParseSegments(operations[j].template);
    if a != b {
      PreferenceIsStrict(Items(operations), a, b);
    }
  }

  /** At the first segment where two templates differ, the preferred one is never a
      parameter facing a literal. */
  lemma {:induction false} LiteralBeatsParameter(items: seq<Item>, a: seq<Matcher>, b: seq<Matcher>, d: nat)
    requires |a| == |b| && Preferred(items, a, b)
    requires d < |a| && a[..d] == b[..d] && a[d] != b[d]
    ensures !(a[d].Param? && b[d].Literal?)
    decreases |a|
  {
    if d > 0 {
      assert a[0] == a[..d][0] == b[..d][0] == b[0];
      assert a[1..][..d - 1] == a[..d][1..] == b[..d][1..] == b[1..][..d - 1];
      LiteralBeatsParameter(Tails(items, a[0]), a[1..], b[1..], d - 1);
    }
  }

  lemma {:induction false} AtFront(operations: seq<Operation>, segments: seq<Matcher>)
    requires operations != []
    ensures
      var last := |operations| - 1;
      var entry := Entry(operations[last].httpMethod, last);
      At(Items(operations), segments)
      == At(Items(operations[..last]), segments)
         + (if ParseSegments(operations[last].template) == segments then [entry] else [])
  {
    var items := Items(operations);
    assert items[..|items| - 1] == Items(operations[..|operations| - 1]);
  }

  /** Operations sharing their segments are listed by increasing index. */
  lemma {:induction false} AtIndices(operations: seq<Operation>, segments: seq<Matcher>, i: nat, j: nat)
    requires i < j <= |At(Items(operations), segments)|
    ensures At(Items(operations), segments)[i].index < |operations|
    ensures j < |At(Items(operations), segments)| ==>
              At(Items(operations), segments)[i].index < At(Items(operations), segments)[j].index
    decreases |operations|
  {
    assert operations != [];
    AtFront(operations, segments);
    var front := operations[..|operations| - 1];
    if i < |At(Items(front), segments)| {
      AtIndices(front, segments, i, if j <= |At(Items(front), segments)| then j else |At(Items(front), segments)|);
    }
  }

  datatype RouteMatch = RouteMatch(operationIndex: nat, params: map<string, string>)

  method FirstOf(entries: seq<Entry>, httpMethod: string) returns (k: nat)
    requires HasMethod(entries, httpMethod)
    ensures k < |entries| && entries[k].httpMethod == httpMethod
    ensures forall j :: 0 <= j < k ==> entries[j].httpMethod != httpMethod
  {
    k := 0;
    while entries[k].httpMethod != httpMethod
      invariant k < |entries|
      invariant exists j :: k <= j < |entries| && entries[j].httpMethod == httpMethod
      invariant forall j :: 0 <= j < k ==> entries[j].httpMethod != httpMethod
      decreases |entries| - k
    {
      k := k + 1;
    }
  }

  class PathRouter {
    const root: Node
    ghost const operations: seq<Operation>

    ghost predicate Valid() {
      root == Build(Items(operations))
    }

    constructor (operations: seq<Operation>)
      ensures Valid() && this.operations == operations
    {
      var node := EMPTY_NODE;
      for i := 0 to |operations|
        invariant node == Build(Items(operations[..i]))
      {
        var segments := ParseSegments(operations[i].template);
        assert operations[..i + 1][..i] == operations[..i];
        BuildSnoc(Items(operations[..i]), Item(segments, Entry(operations[i].httpMethod, i)));
        node := Insert(node, segments, Entry(operations[i].httpMethod, i));
      }
      assert operations[..|operations|] == operations;
      root := node;
      this.operations := operations;
    }

    /** A match is reported exactly when some operation answers; it is the selected one,
        with exactly the parameters its template binds. */
    method MatchRoute(httpMethod: string, path: string) returns (r: Option<RouteMatch>)
      requires Valid()
      ensures r.None? <==> forall i: nat :: !Answers(operations, i, httpMethod, SplitPath(path))
      ensures r.Some? ==>
                var i := r.value.operationIndex;
                && Wins(operations, i, httpMethod, SplitPath(path))
                && r.value.params == Bind(map[], ParseSegments(operations[i].template), SplitPath(path))
    {
      var segments := SplitPath(path);
      var hit := Walk(root, segments, map[], httpMethod);
      ghost var items := Items(operations);
      ChooseCorrect(items, segments, httpMethod);
      if hit.None? {
        NobodyAnswers(operations, httpMethod, segments);
        return None;
      }
      var entries := hit.value.node.operations;
      var k := FirstOf(entries, httpMethod);
      FirstEntryWins(operations, httpMethod, segments, Choose(root, segments, httpMethod).value, k);
      return Some(RouteMatch(entries[k].index, hit.value.params));
    }
  }

  lemma {:induction false} NobodyAnswers(operations: seq<Operation>, httpMethod: string, path: seq<string>)
    ensures SomeCandidate(Items(operations), path, httpMethod) <==> exists i: nat :: Answers(operations, i, httpMethod, path)
  {
    var items := Items(operations);
    forall i: nat | i < |operations|
      ensures Candidate(items[i], path, httpMethod) <==> Answers(operations, i, httpMethod, path)
    {
      assert items[i] == Item(ParseSegments(operations[i].template), Entry(operations[i].httpMethod, i));
    }
    if x :| x in items && Candidate(x, path, httpMethod) {
      var i :| 0 <= i < |items| && items[i] == x;
      assert Answers(operations, i, httpMethod, path);
    }
    if i: nat :| Answers(operations, i, httpMethod, path) {
      assert items[i] in items && Candidate(items[i], path, httpMethod);
    }
  }

  /** Among operations sharing these segments, the first listed has the lowest index. */
  lemma {:induction false} FirstIsLowest(operations: seq<Operation>, segments: seq<Matcher>, k: nat, j: nat)
    requires k < |At(Items(operations), segments)| && j < |operations|
    requires ParseSegments(operations[j].template) == segments
    requires forall n :: 0 <= n < k ==> At(Items(operations), segments)[n].httpMethod != operations[j].httpMethod
    ensures At(Items(operations), segments)[k].index <= j
  {
    var items, entries := Items(operations), At(Items(operations), segments);
    assert items[j] == Item(segments, Entry(operations[j].httpMethod, j)) && items[j] in items;
    AtMembers(items, segments, items[j].entry);
    var n :| 0 <= n < |entries| && entries[n] == items[j].entry;
    if k < n {
      AtIndices(operations, segments, k, n);
    }
  }

  lemma {:induction false} EntryIsDeclared(operations: seq<Operation>, segments: seq<Matcher>, k: nat)
    requires k < |At(Items(operations), segments)|
    ensures
      var entry := At(Items(operations), segments)[k];
      && entry.index < |operations|
      && operations[entry.index].httpMethod == entry.httpMethod
      && ParseSegments(operations[entry.index].template) == segments
  {
    var items, entry := Items(operations), At(Items(operations), segments)[k];
    AtMembers(items, segments, entry);
    assert entry in At(items, segments);
    var i :| 0 <= i < |items| && items[i] == Item(segments, entry);
  }

  /** The first operation of the method at the chosen node is the selected one. */
  lemma {:induction false} FirstEntryWins(operations: seq<Operation>, httpMethod: string, path: seq<string>, choice: Choice, k: nat)
    requires Selects(Items(operations), path, httpMethod, choice)
    requires k < |choice.node.operations| && choice.node.operations[k].httpMethod == httpMethod
    requires forall j :: 0 <= j < k ==> choice.node.operations[j].httpMethod != httpMethod
    ensures
      var i := choice.node.operations[k].index;
      && Wins(operations, i, httpMethod, path)
      && ParseSegments(operations[i].template) == choice.segments
  {
    var i := choice.node.operations[k].index;
    EntryIsDeclared(operations, choice.segments, k);
    forall j: nat | Answers(operations, j, httpMethod, path)
      ensures
        var a, b := choice.segments, ParseSegments(operations[j].template);
        if a == b then i <= j else Preferred(Items(operations), a, b)
    {
      if ParseSegments(operations[j].template) == choice.segments {
        FirstIsLowest(operations, choice.segments, k, j);
      } else {
        assert Items(operations)[j] in Items(operations) && Candidate(Items(operations)[j], path, httpMethod);
      }
    }
  }

  /** A template binds exactly the names it declares, each to the segment at the last
      place it declares it. */
  lemma {:induction false} BindMeaning(params: map<string, string>, segments: seq<Matcher>, path: seq<string>)
    requires |segments| == |path|
    ensures forall n :: n in Bind(params, segments, path) <==> n in params || Param(n) in segments
    ensures forall i :: 0 <= i < |segments| && segments[i].Param?
              && (forall j :: i < j < |segments| ==> segments[j] != segments[i])
              ==> Bind(params, segments, path)[segments[i].name] == path[i]
  {
    forall n ensures n in Bind(params, segments, path) <==> n in params || Param(n) in segments {
      BindKeys(params, segments, path, n);
    }
    forall i | 0 <= i < |segments| && segments[i].Param?
        && (forall j :: i < j < |segments| ==> segments[j] != segments[i])
      ensures segments[i].name in Bind(params, segments, path)
      ensures Bind(params, segments, path)[segments[i].name] == path[i]
    {
      BindLast(params, segments, path, i);
    }
  }

  lemma {:induction false} BindKeys(params: map<string, string>, segments: seq<Matcher>, path: seq<string>, name: string)
    requires |segments| == |path|
    ensures name in Bind(params, segments, path) <==> name in params || Param(name) in segments
    ensures Param(name) !in segments && name in params ==> Bind(params, segments, path)[name] == params[name]
    decreases |segments|
  {
    if segments != [] {
      var params' := if segments[0].Param? then params[segments[0].name := path[0]] else params;
      BindKeys(params', segments[1..], path[1..], name);
      assert segments == [segments[0]] + segments[1..];
    }
  }

  lemma {:induction false} BindLast(params: map<string, string>, segments: seq<Matcher>, path: seq<string>, i: nat)
    requires |segments| == |path| && i < |segments| && segments[i].Param?
    requires forall j :: i < j < |segments| ==> segments[j] != segments[i]
    ensures segments[i].name in Bind(params, segments, path)
    ensures Bind(params, segments, path)[segments[i].name] == path[i]
    decreases |segments|
  {
    var params' := if segments[0].Param? then params[segments[0].name := path[0]] else params;
    if i == 0 {
      BindKeys(params', segments[1..], path[1..], segments[0].name);
    } else {
      BindLast(params', segments[1..], path[1..], i - 1);
    }
  }
}
