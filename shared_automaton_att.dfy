// Writing a shared automaton in AT&T text format (writeAttAutomaton in
// include/flipsta/shared_automaton.hpp): the states reachable from the start
// state are numbered in order of discovery, the start state being 0, and each
// state, when it is taken off a last-in, first-out stack, writes its final
// line and one line per arc.
module SharedAutomatonAtt {
  import opened Wrappers
  import opened Tropical
  import opened SharedAutomaton
  import opened Queue
  import ExplicitAutomaton
  import Traverse

  /**
   * One line of the text: a final state with its weight, or an arc from
   * source to destination whose symbol serves as both the input and the
   * output label.  A weight equal to One is not written.
   */
  datatype AttLine =
    | FinalLine(state: nat, weight: Option<Weight>)
    | ArcLine(source: nat, destination: nat, symbol: Key, weight: Option<Weight>)

  function Shown(w: Weight): Option<Weight>
  {
    if w == One then None else Some(w)
  }

  /** The states reachable from the automaton's state, that state included. */
  function Reachable(a: Automaton): set<State>
    decreases a, 1
  {
    match a
    case Null => {}
    case Shared(_, s) => {s} + ReachableArcs(s, 0)
  }

  function ReachableArcs(s: State, i: nat): set<State>
    requires i <= |s.arcs|
    decreases s, |s.arcs| - i
  {
    if i == |s.arcs| then {} else Reachable(s.arcs[i].1) + ReachableArcs(s, i + 1)
  }

  lemma {:induction false} ReachableArcsContains(s: State, i: nat, j: nat)
    requires i <= j < |s.arcs|
    ensures Reachable(s.arcs[j].1) <= ReachableArcs(s, i)
    decreases j - i
  {
    if i < j {
      ReachableArcsContains(s, i + 1, j);
    }
  }

  lemma {:induction false} ReachableArcsWitness(s: State, i: nat, t: State) returns (j: nat)
    requires i <= |s.arcs| && t in ReachableArcs(s, i)
    ensures i <= j < |s.arcs| && t in Reachable(s.arcs[j].1)
    decreases |s.arcs| - i
  {
    if t in Reachable(s.arcs[i].1) {
      j := i;
    } else {
      j := ReachableArcsWitness(s, i + 1, t);
    }
  }

  /** Every state reachable from a well-formed automaton is well-formed. */
  lemma {:induction false} ReachableWellFormed(a: Automaton, t: State)
    requires WellFormed(a) && t in Reachable(a)
    ensures StateWellFormed(t)
    decreases a
  {
    var s := a.state;
    if t != s {
      var j := ReachableArcsWitness(s, 0, t);
      ReachableWellFormed(s.arcs[j].1, t);
    }
  }

  /** The targets of the arcs of a reachable state are reachable. */
  lemma {:induction false} ReachableClosed(a: Automaton, t: State, i: nat)
    requires t in Reachable(a) && i < |t.arcs| && t.arcs[i].1.Shared?
    ensures t.arcs[i].1.state in Reachable(a)
    decreases a
  {
    var s := a.state;
    if t == s {
      ReachableArcsContains(s, 0, i);
    } else {
      var j := ReachableArcsWitness(s, 0, t);
      ReachableClosed(s.arcs[j].1, t, i);
      ReachableArcsContains(s, 0, j);
    }
  }

  /** A set of states closed under arcs. */
  ghost predicate ClosedUnderArcs(c: set<State>)
  {
    forall t, i :: t in c && 0 <= i < |t.arcs| && t.arcs[i].1.Shared? ==> t.arcs[i].1.state in c
  }

  /** The reachable states are the least set closed under arcs that holds the automaton's state. */
  lemma {:induction false} ReachableLeast(a: Automaton, c: set<State>)
    requires a.Shared? && a.state in c && ClosedUnderArcs(c)
    ensures Reachable(a) <= c
    decreases a
  {
    var s := a.state;
    forall t | t in ReachableArcs(s, 0) ensures t in c {
      var j := ReachableArcsWitness(s, 0, t);
      ReachableLeast(s.arcs[j].1, c);
    }
  }

  /** The number a discovery order gives a state: its position, or past the end for a state it does not hold. */
  function StateIndex(order: seq<State>, s: State): (k: nat)
    ensures s in order ==> k < |order| && order[k] == s
    ensures s !in order ==> k == |order|
  {
    if s in order then ExplicitAutomaton.IndexOf(order, s) else |order|
  }

  function DestinationIndex(order: seq<State>, a: Automaton): nat
  {
    if a.Shared? then StateIndex(order, a.state) else |order|
  }

  /** The line for an arc of the state numbered source. */
  function ArcLineOf(source: nat, arc: (Key, Automaton), order: seq<State>): AttLine
  {
    ArcLine(source, DestinationIndex(order, arc.1), arc.0, Shown(StartWeight(arc.1)))
  }

  function ArcLines(source: nat, arcs: seq<(Key, Automaton)>, order: seq<State>): (r: seq<AttLine>)
    ensures |r| == |arcs|
    ensures forall i :: 0 <= i < |arcs| ==> r[i] == ArcLineOf(source, arcs[i], order)
  {
    if arcs == [] then [] else ArcLines(source, arcs[..|arcs| - 1], order) + [ArcLineOf(source, arcs[|arcs| - 1], order)]
  }

  function FinalLines(s: State, order: seq<State>): seq<AttLine>
  {
    if s.finalWeight != Zero then [FinalLine(StateIndex(order, s), Shown(s.finalWeight))] else []
  }

  /** What one state writes: its final line, if it is final, then its arcs in key order. */
  function StateLines(s: State, order: seq<State>): seq<AttLine>
  {
    FinalLines(s, order) + ArcLines(StateIndex(order, s), s.arcs, order)
  }

  /** What the states write, one after the other, in the order given. */
  function Written(states: seq<State>, order: seq<State>): seq<AttLine>
  {
    if states == [] then [] else Written(states[..|states| - 1], order) + StateLines(states[|states| - 1], order)
  }

  // Numbers appear in the text in the order they are given.

  /** The largest state number a line mentions. */
  function MaxNumber(line: AttLine): nat
  {
    match line
    case FinalLine(s, _) => s
    case ArcLine(s, d, _, _) => if s < d then d else s
  }

  /**
   * One more than the largest number the lines mention, and at least 1: the
   * start state has number 0 before any line is written.
   */
  function High(lines: seq<AttLine>): (h: nat)
    ensures h >= 1
    ensures forall p :: 0 <= p < |lines| ==> MaxNumber(lines[p]) < h
    ensures h > 1 ==> exists p :: 0 <= p < |lines| && MaxNumber(lines[p]) + 1 == h
  {
    if lines == [] then 1
    else
      var h, m := High(lines[..|lines| - 1]), MaxNumber(lines[|lines| - 1]) + 1;
      if m > h then m else h
  }

  /** The line mentions numbers below h only, except that an arc may have h itself as its destination. */
  predicate MentionsKnown(line: AttLine, h: nat)
  {
    match line
    case FinalLine(s, _) => s < h
    case ArcLine(s, d, _, _) => s < h && d <= h
  }

  /**
   * Each line mentions only the numbers of the lines before it (and the start
   * state's 0), except that an arc line may introduce the next number as its
   * destination.
   */
  predicate InDiscoveryOrder(lines: seq<AttLine>)
  {
    lines == [] ||
    (InDiscoveryOrder(lines[..|lines| - 1]) && MentionsKnown(lines[|lines| - 1], High(lines[..|lines| - 1])))
  }

  lemma AppendLine(lines: seq<AttLine>, line: AttLine)
    requires InDiscoveryOrder(lines) && MentionsKnown(line, High(lines))
    ensures InDiscoveryOrder(lines + [line])
    ensures High(lines + [line]) == if MaxNumber(line) + 1 > High(lines) then MaxNumber(line) + 1 else High(lines)
  {
    assert (lines + [line])[..|lines|] == lines;
  }

  /**
   * In a text in discovery order, each number k other than the start state's
   * first appears as the destination of an arc line whose source has a
   * smaller number, and every line before it mentions smaller numbers only.
   */
  lemma {:induction false} FirstMention(lines: seq<AttLine>, k: nat) returns (p: nat)
    requires InDiscoveryOrder(lines) && 0 < k < High(lines)
    ensures p < |lines| && lines[p].ArcLine? && lines[p].destination == k && lines[p].source < k
    ensures forall q :: 0 <= q < p ==> MaxNumber(lines[q]) < k
  {
    var init := lines[..|lines| - 1];
    if k < High(init) {
      p := FirstMention(init, k);
      assert forall q :: 0 <= q <= p ==> lines[q] == init[q];
    } else {
      p := |lines| - 1;
      assert forall q :: 0 <= q < p ==> lines[q] == init[q];
    }
  }

  /**
   * The destinations of the arcs, in key order, that the order does not hold,
   * each taken once: the states an arc loop numbers and pushes.
   */
  ghost function Fresh(order: seq<State>, arcs: seq<(Key, Automaton)>): seq<State>
  {
    if arcs == [] then []
    else
      var earlier, d := Fresh(order, arcs[..|arcs| - 1]), arcs[|arcs| - 1].1;
      if d.Shared? && d.state !in order + earlier then earlier + [d.state] else earlier
  }

  /** The fresh states are the arc destinations that the order does not hold. */
  lemma {:induction false} FreshStates(order: seq<State>, arcs: seq<(Key, Automaton)>, t: State)
    ensures t in Fresh(order, arcs) <==> t !in order && exists i :: 0 <= i < |arcs| && arcs[i].1.Shared? && arcs[i].1.state == t
  {
    if arcs != [] {
      var init := arcs[..|arcs| - 1];
      FreshStates(order, init, t);
      assert forall i :: 0 <= i < |init| ==> init[i] == arcs[i];
    }
  }

  lemma FreshStep(order: seq<State>, arcs: seq<(Key, Automaton)>, i: nat)
    requires i < |arcs|
    ensures Fresh(order, arcs[..i + 1]) ==
      if arcs[i].1.Shared? && arcs[i].1.state !in order + Fresh(order, arcs[..i])
      then Fresh(order, arcs[..i]) + [arcs[i].1.state] else Fresh(order, arcs[..i])
  {
    assert arcs[..i + 1][..i] == arcs[..i];
  }

  /** A numbering of the reachable states: the start state first, each reachable state once, nothing else. */
  ghost predicate IsNumbering(a: Automaton, order: seq<State>)
  {
    && (a.Null? ==> order == [])
    && (a.Shared? ==> order != [] && order[0] == a.state)
    && ExplicitAutomaton.Distinct(order)
    && forall t :: t in order <==> t in Reachable(a)
  }

  // Numbers stay the same as the discovery order grows.

  lemma IndexStable(order: seq<State>, more: seq<State>, s: State)
    requires s in order
    ensures StateIndex(order + more, s) == StateIndex(order, s)
  {
    var k := StateIndex(order, s);
    assert (order + more)[k] == s;
    assert forall j :: 0 <= j < k ==> (order + more)[j] == order[j];
  }

  ghost predicate ArcsIn(arcs: seq<(Key, Automaton)>, order: seq<State>)
  {
    forall i :: 0 <= i < |arcs| ==> arcs[i].1.Shared? && arcs[i].1.state in order
  }

  lemma ArcLinesStable(source: nat, arcs: seq<(Key, Automaton)>, order: seq<State>, more: seq<State>)
    requires ArcsIn(arcs, order)
    ensures ArcLines(source, arcs, order + more) == ArcLines(source, arcs, order)
  {
    forall i | 0 <= i < |arcs| ensures ArcLineOf(source, arcs[i], order + more) == ArcLineOf(source, arcs[i], order) {
      IndexStable(order, more, arcs[i].1.state);
    }
  }

  lemma StateLinesStable(s: State, order: seq<State>, more: seq<State>)
    requires s in order && ArcsIn(s.arcs, order)
    ensures StateLines(s, order + more) == StateLines(s, order)
  {
    IndexStable(order, more, s);
    ArcLinesStable(StateIndex(order, s), s.arcs, order, more);
  }

  lemma {:induction false} WrittenStable(states: seq<State>, order: seq<State>, more: seq<State>)
    requires forall t :: t in states ==> t in order && ArcsIn(t.arcs, order)
    ensures Written(states, order + more) == Written(states, order)
  {
    if states != [] {
      var last := states[|states| - 1];
      assert last in states;
      WrittenStable(states[..|states| - 1], order, more);
      StateLinesStable(last, order, more);
    }
  }

  lemma DistinctIndex(order: seq<State>, k: nat)
    requires ExplicitAutomaton.Distinct(order) && k < |order|
    ensures StateIndex(order, order[k]) == k
  {
  }

  lemma DistinctBounded(states: seq<State>, c: set<State>)
    requires ExplicitAutomaton.Distinct(states) && forall t :: t in states ==> t in c
    ensures |states| <= |c|
  {
    Traverse.DistinctCardinality(states);
    SubsetCardinality((set t | t in states), c);
  }

  lemma {:induction false} SubsetCardinality<T>(a: set<T>, b: set<T>)
    requires a <= b
    ensures |a| <= |b|
    decreases a
  {
    if a != {} {
      var x :| x in a;
      SubsetCardinality(a - {x}, b - {x});
    }
  }

  // The bookkeeping of the writing loop.

  /** stateIndices maps each discovered state to its position in the discovery order, which holds reachable states only. */
  ghost predicate Numbered(a: Automaton, order: seq<State>, stateIndices: map<State, nat>, lastStateIndex: nat)
  {
    && a.Shared? && |order| == lastStateIndex + 1 && order[0] == a.state
    && ExplicitAutomaton.Distinct(order)
    && (forall k :: 0 <= k < |order| ==> order[k] in stateIndices && stateIndices[order[k]] == k)
    && (forall t :: t in stateIndices ==> t in order)
    && (forall t :: t in order ==> t in Reachable(a))
  }

  /** Each discovered state has been popped or is on the stack, not both, and neither holds a state twice. */
  ghost predicate Split(order: seq<State>, popped: seq<State>, todo: seq<State>)
  {
    && ExplicitAutomaton.Distinct(popped) && ExplicitAutomaton.Distinct(todo)
    && (forall t :: t in popped ==> t !in todo)
    && (forall t :: t in order <==> t in popped || t in todo)
  }

  lemma PopSplit(order: seq<State>, popped: seq<State>, todo: seq<State>, rest: seq<State>, source: State)
    requires Split(order, popped, todo) && todo == rest + [source]
    ensures Split(order, popped + [source], rest)
  {
    assert todo[|rest|] == source;
    forall i, j | 0 <= i < j < |rest| ensures rest[i] != rest[j] {
      assert rest[i] == todo[i] && rest[j] == todo[j];
    }
    assert source !in popped;
    forall t | t in rest ensures t != source {
      var k :| 0 <= k < |rest| && rest[k] == t;
      assert todo[k] == t;
    }
    forall t | t in popped + [source] ensures t !in rest {
      if t != source {
        assert t in popped;
      }
    }
  }

  lemma PushSplit(order: seq<State>, popped: seq<State>, todo: seq<State>, t: State)
    requires Split(order, popped, todo) && t !in order
    ensures Split(order + [t], popped, todo + [t])
  {
  }

  lemma PushNumbered(a: Automaton, order: seq<State>, stateIndices: map<State, nat>, lastStateIndex: nat, t: State)
    requires Numbered(a, order, stateIndices, lastStateIndex) && t !in stateIndices && t in Reachable(a)
    ensures t !in order
    ensures Numbered(a, order + [t], stateIndices[t := lastStateIndex + 1], lastStateIndex + 1)
  {
    var order', m := order + [t], stateIndices[t := lastStateIndex + 1];
    assert t !in order by {
      forall k | 0 <= k < |order| ensures order[k] != t {
      }
    }
    forall k | 0 <= k < |order'| ensures order'[k] in m && m[order'[k]] == k {
      if k < |order| {
        assert order'[k] == order[k] != t;
      }
    }
  }

  /** A new state numbered after the others changes no line already written. */
  lemma PushKeepsLines(done: seq<State>, source: State, i: nat, order: seq<State>, d: State)
    requires forall t :: t in done ==> t in order && ArcsIn(t.arcs, order)
    requires source in order && i <= |source.arcs| && ArcsIn(source.arcs[..i], order)
    ensures forall t :: t in done ==> t in order + [d] && ArcsIn(t.arcs, order + [d])
    ensures source in order + [d] && StateIndex(order + [d], source) == StateIndex(order, source)
    ensures ArcsIn(source.arcs[..i], order + [d])
    ensures Written(done, order + [d]) + FinalLines(source, order + [d]) +
            ArcLines(StateIndex(order, source), source.arcs[..i], order + [d])
         == Written(done, order) + FinalLines(source, order) + ArcLines(StateIndex(order, source), source.arcs[..i], order)
  {
    WrittenStable(done, order, [d]);
    IndexStable(order, [d], source);
    ArcLinesStable(StateIndex(order, source), source.arcs[..i], order, [d]);
  }

  lemma ArcsInStep(arcs: seq<(Key, Automaton)>, i: nat, order: seq<State>)
    requires i < |arcs| && ArcsIn(arcs[..i], order) && arcs[i].1.Shared? && arcs[i].1.state in order
    ensures ArcsIn(arcs[..i + 1], order)
  {
    forall j | 0 <= j < i + 1 ensures arcs[..i + 1][j] == arcs[j] {
    }
    forall j | 0 <= j < i ensures arcs[..i][j] == arcs[j] {
    }
  }

  lemma PoppedArcsIn(done: seq<State>, source: State, order: seq<State>)
    requires forall t :: t in done ==> ArcsIn(t.arcs, order)
    requires ArcsIn(source.arcs[..|source.arcs|], order)
    ensures forall t :: t in done + [source] ==> ArcsIn(t.arcs, order)
  {
    assert source.arcs[..|source.arcs|] == source.arcs;
  }

  /** Writing the next arc extends the lines of the arcs before it. */
  lemma ArcStep(head: seq<AttLine>, source: nat, arcs: seq<(Key, Automaton)>, i: nat, order: seq<State>)
    requires i < |arcs|
    ensures (head + ArcLines(source, arcs[..i], order)) + [ArcLineOf(source, arcs[i], order)]
         == head + ArcLines(source, arcs[..i + 1], order)
  {
    assert arcs[..i + 1][..i] == arcs[..i];
  }

  /** The line written for arc i, with its destination's number, extends the arc lines by one. */
  lemma NextArcLine(head: seq<AttLine>, source: nat, arcs: seq<(Key, Automaton)>, i: nat, order: seq<State>, destinationIndex: nat)
    requires i < |arcs| && arcs[i].1.Shared? && destinationIndex == StateIndex(order, arcs[i].1.state)
    ensures (head + ArcLines(source, arcs[..i], order)) + [ArcLine(source, destinationIndex, arcs[i].0, Shown(arcs[i].1.startWeight))]
         == head + ArcLines(source, arcs[..i + 1], order)
  {
    ArcStep(head, source, arcs, i, order);
  }

  /** A state that already has a number has the number of its place in the order. */
  lemma KnownIndex(a: Automaton, order: seq<State>, stateIndices: map<State, nat>, lastStateIndex: nat, t: State)
    requires Numbered(a, order, stateIndices, lastStateIndex) && t in stateIndices
    ensures t in order && stateIndices[t] == StateIndex(order, t)
  {
    var k :| 0 <= k < |order| && order[k] == t;
    DistinctIndex(order, k);
  }

  lemma PoppedLines(done: seq<State>, source: State, order: seq<State>)
    ensures Written(done, order) + FinalLines(source, order) + ArcLines(StateIndex(order, source), source.arcs[..|source.arcs|], order)
         == Written(done + [source], order)
  {
    assert source.arcs[..|source.arcs|] == source.arcs;
    assert (done + [source])[..|done|] == done;
  }

  /** A destination seen for the first time gets the next number and is pushed. */
  method Discover(a: Automaton, destination: State, todo: LifoQueue<State>,
                  stateIndices: map<State, nat>, lastStateIndex: nat, ghost order: seq<State>, ghost popped: seq<State>)
    returns (newIndices: map<State, nat>, newLastIndex: nat, ghost newOrder: seq<State>)
    modifies todo
    requires Numbered(a, order, stateIndices, lastStateIndex) && Split(order, popped, todo.elements)
    requires destination !in stateIndices && destination in Reachable(a)
    ensures newOrder == order + [destination] && newLastIndex == lastStateIndex + 1
    ensures todo.elements == old(todo.elements) + [destination]
    ensures newLastIndex == StateIndex(newOrder, destination)
    ensures Numbered(a, newOrder, newIndices, newLastIndex) && Split(newOrder, popped, todo.elements)
  {
    PushNumbered(a, order, stateIndices, lastStateIndex, destination);
    PushSplit(order, popped, todo.elements, destination);
    todo.Push(destination);
    newLastIndex := lastStateIndex + 1;
    newIndices := stateIndices[destination := newLastIndex];
    newOrder := order + [destination];
    DistinctIndex(newOrder, newLastIndex);
  }

  /**
   * What holds while the arcs of source are written: the numbering, the
   * states still to pop, every state written so far with its arcs numbered,
   * and the lines of source's final weight and of its first i arcs.
   */
  ghost predicate WritingArcs(a: Automaton, source: State, sourceIndex: nat, i: nat, pending: seq<State>,
                              indices: map<State, nat>, last: nat, lines: seq<AttLine>, order: seq<State>, done: seq<State>)
  {
    && i <= |source.arcs|
    && Numbered(a, order, indices, last)
    && Split(order, done + [source], pending)
    && (forall t :: t in done ==> t in order && ArcsIn(t.arcs, order))
    && source in order && sourceIndex == StateIndex(order, source)
    && ArcsIn(source.arcs[..i], order)
    && lines == Written(done, order) + FinalLines(source, order) + ArcLines(sourceIndex, source.arcs[..i], order)
  }

  /**
   * The fresh destinations of the first i arcs of source have been numbered
   * after the states of before and pushed onto stack, in key order, and the
   * text is in discovery order.
   */
  ghost predicate Discovering(source: State, i: nat, before: seq<State>, stack: seq<State>,
                              pending: seq<State>, lines: seq<AttLine>, order: seq<State>)
  {
    && i <= |source.arcs|
    && order == before + Fresh(before, source.arcs[..i])
    && pending == stack + Fresh(before, source.arcs[..i])
    && InDiscoveryOrder(lines) && High(lines) == |order|
  }

  lemma StartDiscovering(source: State, order: seq<State>, pending: seq<State>, lines: seq<AttLine>, sourceIndex: nat)
    requires InDiscoveryOrder(lines) && High(lines) == |order| && sourceIndex < |order|
    ensures Discovering(source, 0, order, pending, pending,
                        if source.finalWeight != Zero then lines + [FinalLine(sourceIndex, Shown(source.finalWeight))] else lines, order)
  {
    assert source.arcs[..0] == [];
    if source.finalWeight != Zero {
      AppendLine(lines, FinalLine(sourceIndex, Shown(source.finalWeight)));
    }
  }

  lemma FinishDiscovering(source: State, before: seq<State>, stack: seq<State>,
                          pending: seq<State>, lines: seq<AttLine>, order: seq<State>)
    requires Discovering(source, |source.arcs|, before, stack, pending, lines, order)
    ensures order == before + Fresh(before, source.arcs) && pending == stack + Fresh(before, source.arcs)
    ensures InDiscoveryOrder(lines) && High(lines) == |order|
  {
    assert source.arcs[..|source.arcs|] == source.arcs;
  }

  /** The arc line of arc i names a known destination, or numbers and pushes a fresh one. */
  lemma DiscoveringStep(source: State, i: nat, before: seq<State>, stack: seq<State>,
                        pending: seq<State>, lines: seq<AttLine>, order: seq<State>, line: AttLine)
    requires i < |source.arcs| && source.arcs[i].1.Shared? && Discovering(source, i, before, stack, pending, lines, order)
    requires line.ArcLine? && line.source < |order| && line.destination == StateIndex(order, source.arcs[i].1.state)
    ensures var t := source.arcs[i].1.state; var extra := if t in order then [] else [t];
            Discovering(source, i + 1, before, stack, pending + extra, lines + [line], order + extra)
  {
    FreshStep(before, source.arcs, i);
    AppendLine(lines, line);
  }

  /**
   * The body of writeAttAutomaton's loop for the popped state source: its
   * final line, then for each arc in key order the destination's number,
   * found in stateIndices or given to it as the next number (the destination
   * is then pushed), and the arc line.
   */
  method WriteState(a: Automaton, source: State, sourceIndex: nat, todo: LifoQueue<State>,
                    stateIndices: map<State, nat>, lastStateIndex: nat, lines: seq<AttLine>,
                    ghost order: seq<State>, ghost done: seq<State>)
    returns (newIndices: map<State, nat>, newLastIndex: nat, newLines: seq<AttLine>, ghost newOrder: seq<State>)
    modifies todo
    requires Numbered(a, order, stateIndices, lastStateIndex) && Split(order, done + [source], todo.elements)
    requires forall t :: t in done ==> t in order && ArcsIn(t.arcs, order)
    requires source in order && sourceIndex == StateIndex(order, source) && StateWellFormed(source)
    requires lines == Written(done, order) && InDiscoveryOrder(lines) && High(lines) == |order|
    ensures Numbered(a, newOrder, newIndices, newLastIndex) && Split(newOrder, done + [source], todo.elements)
    ensures forall t :: t in done + [source] ==> ArcsIn(t.arcs, newOrder)
    ensures newLines == Written(done + [source], newOrder)
    ensures newOrder == order + Fresh(order, source.arcs) && todo.elements == old(todo.elements) + Fresh(order, source.arcs)
    ensures InDiscoveryOrder(newLines) && High(newLines) == |newOrder|
  {
    ghost var stack := todo.elements;
    newIndices, newLastIndex, newLines, newOrder := stateIndices, lastStateIndex, lines, order;
    if source.finalWeight != Zero {
      newLines := newLines + [FinalLine(sourceIndex, Shown(source.finalWeight))];
    }
    assert newLines == lines + FinalLines(source, order);
    StartWriting(a, source, sourceIndex, stack, stateIndices, lastStateIndex, lines, newLines, order, done);
    StartDiscovering(source, order, stack, lines, sourceIndex);
    for i := 0 to |source.arcs|
      invariant WritingArcs(a, source, sourceIndex, i, todo.elements, newIndices, newLastIndex, newLines, newOrder, done)
      invariant Discovering(source, i, order, stack, todo.elements, newLines, newOrder)
    {
      newIndices, newLastIndex, newLines, newOrder :=
        WriteArc(a, source, sourceIndex, i, todo, newIndices, newLastIndex, newLines, order, stack, newOrder, done);
    }
    FinishWriting(a, source, sourceIndex, todo.elements, newIndices, newLastIndex, newLines, newOrder, done);
    FinishDiscovering(source, order, stack, todo.elements, newLines, newOrder);
  }

  /** Before the first arc: only the final line of source has been added. */
  lemma StartWriting(a: Automaton, source: State, sourceIndex: nat, pending: seq<State>,
                     indices: map<State, nat>, last: nat, lines: seq<AttLine>, newLines: seq<AttLine>,
                     order: seq<State>, done: seq<State>)
    requires Numbered(a, order, indices, last) && Split(order, done + [source], pending)
    requires forall t :: t in done ==> t in order && ArcsIn(t.arcs, order)
    requires source in order && sourceIndex == StateIndex(order, source)
    requires lines == Written(done, order)
    requires newLines == lines + FinalLines(source, order)
    ensures WritingArcs(a, source, sourceIndex, 0, pending, indices, last, newLines, order, done)
  {
    assert source.arcs[..0] == [];
  }

  /** After the last arc: source is written, and every written state has its arcs numbered. */
  lemma FinishWriting(a: Automaton, source: State, sourceIndex: nat, pending: seq<State>,
                      indices: map<State, nat>, last: nat, lines: seq<AttLine>, order: seq<State>, done: seq<State>)
    requires WritingArcs(a, source, sourceIndex, |source.arcs|, pending, indices, last, lines, order, done)
    ensures Numbered(a, order, indices, last) && Split(order, done + [source], pending)
    ensures forall t :: t in done + [source] ==> ArcsIn(t.arcs, order)
    ensures lines == Written(done + [source], order)
  {
    PoppedLines(done, source, order);
    PoppedArcsIn(done, source, order);
  }

  /**
   * One arc of the state being written: the destination's number, found in
   * stateIndices or given to it as the next number (the destination is then
   * pushed), and the arc line.
   */
  method WriteArc(a: Automaton, source: State, sourceIndex: nat, i: nat, todo: LifoQueue<State>,
                  stateIndices: map<State, nat>, lastStateIndex: nat, lines: seq<AttLine>,
                  ghost before: seq<State>, ghost stack: seq<State>, ghost order: seq<State>, ghost done: seq<State>)
    returns (newIndices: map<State, nat>, newLastIndex: nat, newLines: seq<AttLine>, ghost newOrder: seq<State>)
    modifies todo
    requires i < |source.arcs| && StateWellFormed(source)
    requires WritingArcs(a, source, sourceIndex, i, todo.elements, stateIndices, lastStateIndex, lines, order, done)
    requires Discovering(source, i, before, stack, todo.elements, lines, order)
    ensures WritingArcs(a, source, sourceIndex, i + 1, todo.elements, newIndices, newLastIndex, newLines, newOrder, done)
    ensures Discovering(source, i + 1, before, stack, todo.elements, newLines, newOrder)
  {
    var symbol, weight, destination := source.arcs[i].0, source.arcs[i].1.startWeight, source.arcs[i].1.state;
    if destination in stateIndices {
      KnownArc(a, source, sourceIndex, i, before, stack, todo.elements, stateIndices, lastStateIndex, lines, order, done);
      newIndices, newLastIndex, newOrder := stateIndices, lastStateIndex, order;
      newLines := lines + [ArcLine(sourceIndex, stateIndices[destination], symbol, Shown(weight))];
    } else {
      newIndices, newLastIndex, newLines, newOrder :=
        FreshArc(a, source, sourceIndex, i, todo, stateIndices, lastStateIndex, lines, before, stack, order, done);
    }
  }

  /** An arc whose destination already has a number: only the arc line is added. */
  lemma KnownArc(a: Automaton, source: State, sourceIndex: nat, i: nat, before: seq<State>, stack: seq<State>,
                 pending: seq<State>, indices: map<State, nat>, last: nat, lines: seq<AttLine>,
                 order: seq<State>, done: seq<State>)
    requires i < |source.arcs| && StateWellFormed(source) && source.arcs[i].1.state in indices
    requires WritingArcs(a, source, sourceIndex, i, pending, indices, last, lines, order, done)
    requires Discovering(source, i, before, stack, pending, lines, order)
    ensures var line := ArcLine(sourceIndex, indices[source.arcs[i].1.state], source.arcs[i].0, Shown(source.arcs[i].1.startWeight));
            && WritingArcs(a, source, sourceIndex, i + 1, pending, indices, last, lines + [line], order, done)
            && Discovering(source, i + 1, before, stack, pending, lines + [line], order)
  {
    var destination := source.arcs[i].1.state;
    var line := ArcLine(sourceIndex, indices[destination], source.arcs[i].0, Shown(source.arcs[i].1.startWeight));
    KnownIndex(a, order, indices, last, destination);
    assert sourceIndex < |order|;
    DiscoveringStep(source, i, before, stack, pending, lines, order, line);
    ArcsInStep(source.arcs, i, order);
    NextArcLine(Written(done, order) + FinalLines(source, order), sourceIndex, source.arcs, i, order, indices[destination]);
  }

  /** An arc whose destination is seen for the first time: it is numbered and pushed, then the arc line is added. */
  method FreshArc(a: Automaton, source: State, sourceIndex: nat, i: nat, todo: LifoQueue<State>,
                  stateIndices: map<State, nat>, lastStateIndex: nat, lines: seq<AttLine>,
                  ghost before: seq<State>, ghost stack: seq<State>, ghost order: seq<State>, ghost done: seq<State>)
    returns (newIndices: map<State, nat>, newLastIndex: nat, newLines: seq<AttLine>, ghost newOrder: seq<State>)
    modifies todo
    requires i < |source.arcs| && StateWellFormed(source) && source.arcs[i].1.state !in stateIndices
    requires WritingArcs(a, source, sourceIndex, i, todo.elements, stateIndices, lastStateIndex, lines, order, done)
    requires Discovering(source, i, before, stack, todo.elements, lines, order)
    ensures newLines == lines + [ArcLine(sourceIndex, lastStateIndex + 1, source.arcs[i].0, Shown(source.arcs[i].1.startWeight))]
    ensures WritingArcs(a, source, sourceIndex, i + 1, todo.elements, newIndices, newLastIndex, newLines, newOrder, done)
    ensures Discovering(source, i + 1, before, stack, todo.elements, newLines, newOrder)
  {
    ghost var pending := todo.elements;
    var symbol, weight, destination := source.arcs[i].0, source.arcs[i].1.startWeight, source.arcs[i].1.state;
    ReachableClosed(a, source, i);
    PushKeepsLines(done, source, i, order, destination);
    newIndices, newLastIndex, newOrder := Discover(a, destination, todo, stateIndices, lastStateIndex, order, done + [source]);
    ArcsInStep(source.arcs, i, newOrder);
    NextArcLine(Written(done, newOrder) + FinalLines(source, newOrder), sourceIndex, source.arcs, i, newOrder, newLastIndex);
    newLines := lines + [ArcLine(sourceIndex, newLastIndex, symbol, Shown(weight))];
    DiscoveringStep(source, i, before, stack, pending, lines, order, ArcLine(sourceIndex, newLastIndex, symbol, Shown(weight)));
  }

  /**
   * writeAttAutomaton: number the start state 0 and push it; pop a state and
   * write its lines, numbering and pushing the destinations not seen before.
   * The start weight of the automaton is not written.
   */
  method WriteAttAutomaton(a: Automaton) returns (lines: seq<AttLine>, ghost order: seq<State>, ghost popped: seq<State>)
    requires WellFormed(a)
    ensures IsNumbering(a, order)
    ensures ExplicitAutomaton.Distinct(popped) && forall t :: t in popped <==> t in order
    ensures lines == Written(popped, order)
    ensures InDiscoveryOrder(lines) && (a.Shared? ==> High(lines) == |order|)
  {
    lines, order, popped := [], [], [];
    if a.Null? {
      return;
    }
    var root := a.state;
    var stateIndices: map<State, nat> := map[root := 0];
    var lastStateIndex := 0;
    var todo := new LifoQueue<State>();
    todo.Push(root);
    order := [root];
    while !todo.Empty()
      invariant Numbered(a, order, stateIndices, lastStateIndex)
      invariant Split(order, popped, todo.elements)
      invariant forall t :: t in popped ==> t in order && ArcsIn(t.arcs, order)
      invariant lines == Written(popped, order)
      invariant InDiscoveryOrder(lines) && High(lines) == |order|
      invariant |popped| <= |Reachable(a)|
      decreases |Reachable(a)| - |popped|
    {
      ghost var rest := todo.elements[..|todo.elements| - 1];
      var source := todo.Pop();
      assert todo.elements == rest;
      PopSplit(order, popped, rest + [source], rest, source);
      DistinctIndex(order, StateIndex(order, source));
      var sourceIndex := stateIndices[source];
      ReachableWellFormed(a, source);
      ghost var done := popped;
      stateIndices, lastStateIndex, lines, order := WriteState(a, source, sourceIndex, todo, stateIndices, lastStateIndex, lines, order, done);
      popped := done + [source];
      DistinctBounded(popped, Reachable(a));
    }
    forall t | t in Reachable(a) ensures t in order {
      ReachableLeast(a, set t | t in order);
    }
  }

  /** Every line of what a state writes is in what the states write. */
  lemma {:induction false} WrittenHas(states: seq<State>, order: seq<State>, j: nat, line: AttLine)
    requires j < |states| && line in StateLines(states[j], order)
    ensures line in Written(states, order)
  {
    var init := states[..|states| - 1];
    if j < |init| {
      assert init[j] == states[j];
      WrittenHas(init, order, j, line);
    }
  }

  /** Every line of what the states write comes from one of them. */
  lemma {:induction false} WrittenFrom(states: seq<State>, order: seq<State>, line: AttLine) returns (j: nat)
    requires line in Written(states, order)
    ensures j < |states| && line in StateLines(states[j], order)
  {
    var init := states[..|states| - 1];
    if line in Written(init, order) {
      j := WrittenFrom(init, order, line);
      assert states[j] == init[j];
    } else {
      j := |states| - 1;
    }
  }

  /**
   * The text describes the automaton under the numbering: state k's final
   * line and one line per arc of state k, whose destination number is that
   * of the arc's destination, and no other line.
   */
  lemma WrittenDescribes(a: Automaton, order: seq<State>, popped: seq<State>)
    requires WellFormed(a) && IsNumbering(a, order)
    requires forall t :: t in popped <==> t in order
    ensures forall k :: 0 <= k < |order| && order[k].finalWeight != Zero ==>
              FinalLine(k, Shown(order[k].finalWeight)) in Written(popped, order)
    ensures forall k, i :: 0 <= k < |order| && 0 <= i < |order[k].arcs| ==>
              && ArcLineOf(k, order[k].arcs[i], order) in Written(popped, order)
              && ArcLineOf(k, order[k].arcs[i], order).destination < |order|
              && order[ArcLineOf(k, order[k].arcs[i], order).destination] == order[k].arcs[i].1.state
    ensures forall line :: line in Written(popped, order) && line.FinalLine? ==>
              line.state < |order| && order[line.state].finalWeight != Zero && line.weight == Shown(order[line.state].finalWeight)
    ensures forall line :: line in Written(popped, order) && line.ArcLine? ==>
              line.source < |order| && exists i :: 0 <= i < |order[line.source].arcs| && line == ArcLineOf(line.source, order[line.source].arcs[i], order)
  {
    var w := Written(popped, order);
    forall k | 0 <= k < |order|
      ensures order[k].finalWeight != Zero ==> FinalLine(k, Shown(order[k].finalWeight)) in w
      ensures forall i :: 0 <= i < |order[k].arcs| ==> ArcLineOf(k, order[k].arcs[i], order) in w
    {
      var t := order[k];
      DistinctIndex(order, k);
      assert t in popped;
      var j :| 0 <= j < |popped| && popped[j] == t;
      forall line | line in StateLines(t, order) ensures line in w {
        WrittenHas(popped, order, j, line);
      }
      forall i | 0 <= i < |t.arcs| ensures ArcLineOf(k, t.arcs[i], order) in StateLines(t, order) {
        assert ArcLines(k, t.arcs, order)[i] == ArcLineOf(k, t.arcs[i], order);
      }
    }
    forall k, i | 0 <= k < |order| && 0 <= i < |order[k].arcs|
      ensures ArcLineOf(k, order[k].arcs[i], order).destination < |order|
      ensures order[ArcLineOf(k, order[k].arcs[i], order).destination] == order[k].arcs[i].1.state
    {
      var t := order[k];
      assert t in Reachable(a);
      ReachableWellFormed(a, t);
      ReachableClosed(a, t, i);
    }
    forall line | line in w
      ensures line.FinalLine? ==>
        line.state < |order| && order[line.state].finalWeight != Zero && line.weight == Shown(order[line.state].finalWeight)
      ensures line.ArcLine? ==>
        line.source < |order| && exists i :: 0 <= i < |order[line.source].arcs| && line == ArcLineOf(line.source, order[line.source].arcs[i], order)
    {
      var j := WrittenFrom(popped, order, line);
      var t := popped[j];
      assert t in order;
      var k := StateIndex(order, t);
      if line in ArcLines(k, t.arcs, order) {
        var i :| 0 <= i < |t.arcs| && ArcLines(k, t.arcs, order)[i] == line;
      }
    }
  }
}
