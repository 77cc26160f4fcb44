// Reading an automaton in AT&T text format (include/flipsta/att/automaton.hpp
// and source/flipsta/att/automaton.cpp).  Each line of the file is either a
// transition "source destination input output [weight]" or a final state
// "state [weight]".  The first transition's source becomes the start state;
// states are added as they are first mentioned; a symbol equal to the
// table's empty symbol stands for the empty sequence; a missing weight is
// one.  Labels are stored compressed: each symbol is replaced by its id in
// the symbol table's alphabet, which gains any symbol it did not hold yet.
//
// The text parser is not part of this model: lines come in parsed, their
// weights already converted to the weight type W.
module AttAutomaton {
  import opened Wrappers
  import opened Core
  import opened ExplicitAutomaton
  import opened Label
  import opened AttSymbolTable

  /** A parsed line of the file. */
  datatype ParsedLine<W> =
    | Transition(source: nat, destination: nat, inputSymbol: string, outputSymbol: string, weight: Option<W>)
    | Final(state: nat, weight: Option<W>)

  /**
   * The label of the automaton: input and output symbol sequences of at most
   * one symbol each, compressed to alphabet ids, and a weight.  Terminal
   * labels have the empty sequence as both symbol components.
   */
  datatype AttLabel<W> = AttLabel(input: SequenceLabel<nat>, output: SequenceLabel<nat>, weight: W)

  /** A terminal label: no symbols, only a weight. */
  function EmptyLabel<W>(weight: W): (l: AttLabel<W>)
    ensures l.input == EmptySequence && l.output == EmptySequence && l.weight == weight
  {
    AttLabel(EmptySequence, EmptySequence, weight)
  }

  /** The weight given on a line, or one when it has none. */
  function WeightOr<W>(weight: Option<W>, one: W): (w: W)
    ensures weight.None? ==> w == one
    ensures weight.Some? ==> w == weight.value
  {
    if weight.Some? then weight.value else one
  }

  /** getSymbol: the table's empty symbol stands for the empty sequence, any other name for itself. */
  function GetSymbol(emptySymbol: Option<string>, name: string): (l: SequenceLabel<string>)
    ensures l.OptionalSequence?
    ensures l.Symbols() == if emptySymbol == Some(name) then [] else [name]
  {
    if emptySymbol.Some? && name == emptySymbol.value then OptionalSequence(None)
    else OptionalSequence(Some(name))
  }

  /** What the loader knows of the two symbol tables: their empty symbols, and whether they share one alphabet. */
  datatype Tables = Tables(inputEmpty: Option<string>, outputEmpty: Option<string>, shared: bool)

  /** The state of loading: the automaton, the two alphabets' symbols, and whether a transition has been read. */
  datatype Loading<W(==)> = Loading(
    automaton: AutomatonValue<nat, AttLabel<W>>,
    inputSymbols: seq<string>,
    outputSymbols: seq<string>,
    seenState: bool)

  function AddIfAbsent(states: seq<nat>, s: nat): (r: seq<nat>)
    ensures s in r && forall t :: t in r <==> t in states || t == s
  {
    if s in states then states else states + [s]
  }

  /** setTerminalLabel on a terminal list: a zero label erases the entry. */
  function SetTerminal<W(==)>(list: seq<(nat, AttLabel<W>)>, s: nat, l: AttLabel<W>, zero: AttLabel<W>): seq<(nat, AttLabel<W>)>
  {
    if l == zero then UnsetIn(list, s) else SetIn(list, s, l)
  }

  /**
   * A transition line: add the source if new; make it the start state if no
   * transition came before; add the destination if new; then add the arc.
   */
  function ArcStep<W(==)>(l: Loading<W>, tables: Tables, one: W,
                           source: nat, destination: nat, inputSymbol: string, outputSymbol: string, weight: Option<W>): Loading<W>
  {
    ArcAppend(ArcStates(l, one, source, destination), tables, one, source, destination, inputSymbol, outputSymbol, weight)
  }

  /** The states of a transition line, and the start state if it is the first. */
  function ArcStates<W(==)>(l: Loading<W>, one: W, source: nat, destination: nat): Loading<W>
  {
    var a := l.automaton;
    var initial := if l.seenState then a.initialStates else SetTerminal(a.initialStates, source, EmptyLabel(one), a.zero);
    l.(automaton := a.(states := AddIfAbsent(AddIfAbsent(a.states, source), destination), initialStates := initial),
       seenState := true)
  }

  /**
   * The arc of a transition line: compress the input, then the output label
   * (into the same alphabet when the tables share one), and append the arc.
   */
  function ArcAppend<W(==)>(l: Loading<W>, tables: Tables, one: W,
                             source: nat, destination: nat, inputSymbol: string, outputSymbol: string, weight: Option<W>): Loading<W>
  {
    var input := GetSymbol(tables.inputEmpty, inputSymbol);
    var output := GetSymbol(tables.outputEmpty, outputSymbol);
    var inputSymbols := Interned(l.inputSymbols, input.Symbols());
    var outputBefore := if tables.shared then inputSymbols else l.outputSymbols;
    var outputSymbols := Interned(outputBefore, output.Symbols());
    InternedProperties(l.inputSymbols, input.Symbols());
    InternedProperties(outputBefore, output.Symbols());
    var arcLabel := AttLabel(CompressedSequence(inputSymbols, input), CompressedSequence(outputSymbols, output), WeightOr(weight, one));
    l.(automaton := l.automaton.(arcs := l.automaton.arcs + [Arc(source, destination, arcLabel)]),
       inputSymbols := if tables.shared then outputSymbols else inputSymbols,
       outputSymbols := outputSymbols)
  }

  /** A final-state line: add the state if new and set its final label to the weight. */
  function FinalStep<W(==)>(l: Loading<W>, one: W, state: nat, weight: Option<W>): Loading<W>
  {
    var a := l.automaton;
    l.(automaton := a.(
      states := AddIfAbsent(a.states, state),
      finalStates := SetTerminal(a.finalStates, state, EmptyLabel(WeightOr(weight, one)), a.zero)))
  }

  function Step<W(==)>(l: Loading<W>, tables: Tables, one: W, line: ParsedLine<W>): Loading<W>
  {
    match line
    case Transition(source, destination, inputSymbol, outputSymbol, weight) =>
      ArcStep(l, tables, one, source, destination, inputSymbol, outputSymbol, weight)
    case Final(state, weight) => FinalStep(l, one, state, weight)
  }

  /** Before the first line: an empty automaton whose zero is the terminal label with weight zero. */
  function Start<W(==)>(zero: W, inputSymbols: seq<string>, outputSymbols: seq<string>): Loading<W>
  {
    Loading(AutomatonValue(EmptyLabel(zero), [], [], [], []), inputSymbols, outputSymbols, false)
  }

  /** The lines read in order. */
  function Load<W(==)>(lines: seq<ParsedLine<W>>, tables: Tables, one: W, start: Loading<W>): Loading<W>
  {
    if lines == [] then start
    else Step(Load(lines[..|lines| - 1], tables, one, start), tables, one, lines[|lines| - 1])
  }

  /** The loading before line i and after it. */
  lemma LoadPrefix<W>(lines: seq<ParsedLine<W>>, tables: Tables, one: W, start: Loading<W>, i: nat)
    requires i < |lines|
    ensures Load(lines[..i + 1], tables, one, start) == Step(Load(lines[..i], tables, one, start), tables, one, lines[i])
  {
    assert lines[..i + 1][..i] == lines[..i];
  }

  // Properties of loading.

  /** Whether a line names a state. */
  predicate Mentions<W>(line: ParsedLine<W>, s: nat)
  {
    match line
    case Transition(source, destination, _, _, _) => s == source || s == destination
    case Final(state, _) => s == state
  }

  /** Whether some line names a state. */
  predicate Mentioned<W>(lines: seq<ParsedLine<W>>, s: nat)
  {
    exists i :: 0 <= i < |lines| && Mentions(lines[i], s)
  }

  /** The source of the first transition line, if there is one. */
  function FirstSource<W>(lines: seq<ParsedLine<W>>): Option<nat>
  {
    if lines == [] then None
    else if lines[0].Transition? then Some(lines[0].source)
    else FirstSource(lines[1..])
  }

  /** The transition lines, in order. */
  function Transitions<W>(lines: seq<ParsedLine<W>>): (ts: seq<ParsedLine<W>>)
    ensures forall k :: 0 <= k < |ts| ==> ts[k].Transition?
  {
    if lines == [] then []
    else
      var before := Transitions(lines[..|lines| - 1]);
      if lines[|lines| - 1].Transition? then before + [lines[|lines| - 1]] else before
  }

  /** The weight of the last final-state line for s, if there is one. */
  function LastFinal<W>(lines: seq<ParsedLine<W>>, s: nat): Option<Option<W>>
  {
    if lines == [] then None
    else
      var last := lines[|lines| - 1];
      if last.Final? && last.state == s then Some(last.weight)
      else LastFinal(lines[..|lines| - 1], s)
  }

  /** Whether the symbol lists are those of two valid alphabets; shared tables have the same list. */
  ghost predicate SymbolsValid<W>(l: Loading<W>, tables: Tables)
  {
    Distinct(l.inputSymbols) && Distinct(l.outputSymbols) && (tables.shared ==> l.inputSymbols == l.outputSymbols)
  }

  lemma ListValidGrown<W>(list: seq<(nat, AttLabel<W>)>, states: seq<nat>, grown: seq<nat>, zero: AttLabel<W>)
    requires TerminalListValid(list, states, zero)
    requires forall t :: t in states ==> t in grown
    ensures TerminalListValid(list, grown, zero)
  {
  }

  lemma AddIfAbsentDistinct(states: seq<nat>, s: nat)
    requires Distinct(states)
    ensures Distinct(AddIfAbsent(states, s))
  {
  }

  /** Every step keeps the automaton valid and the alphabets without repeated symbols. */
  lemma StepValid<W>(l: Loading<W>, tables: Tables, one: W, line: ParsedLine<W>)
    requires l.automaton.Valid() && SymbolsValid(l, tables)
    ensures Step(l, tables, one, line).automaton.Valid() && SymbolsValid(Step(l, tables, one, line), tables)
  {
    if line.Transition? {
      TransitionValid(l, tables, one, line);
    } else {
      FinalValid(l, tables, one, line);
    }
  }

  /** An arc line adds its states, its arc and, for the first line, the initial state. */
  lemma TransitionValid<W>(l: Loading<W>, tables: Tables, one: W, line: ParsedLine<W>)
    requires l.automaton.Valid() && SymbolsValid(l, tables) && line.Transition?
    ensures Step(l, tables, one, line).automaton.Valid() && SymbolsValid(Step(l, tables, one, line), tables)
  {
    var a := l.automaton;
    var after := Step(l, tables, one, line);
    var states1 := AddIfAbsent(a.states, line.source);
    AddIfAbsentDistinct(a.states, line.source);
    AddIfAbsentDistinct(states1, line.destination);
    ListValidGrown(a.initialStates, a.states, after.automaton.states, a.zero);
    ListValidGrown(a.finalStates, a.states, after.automaton.states, a.zero);
    if !l.seenState {
      UpdateKeepsListValid(a.initialStates, after.automaton.states, line.source, EmptyLabel(one), a.zero);
    }
    var input := GetSymbol(tables.inputEmpty, line.inputSymbol);
    var output := GetSymbol(tables.outputEmpty, line.outputSymbol);
    InternedProperties(l.inputSymbols, input.Symbols());
    var inputSymbols := Interned(l.inputSymbols, input.Symbols());
    var outputBefore := if tables.shared then inputSymbols else l.outputSymbols;
    InternedProperties(outputBefore, output.Symbols());
  }

  /** A final line adds its state and sets its final label. */
  lemma FinalValid<W>(l: Loading<W>, tables: Tables, one: W, line: ParsedLine<W>)
    requires l.automaton.Valid() && SymbolsValid(l, tables) && line.Final?
    ensures Step(l, tables, one, line).automaton.Valid() && SymbolsValid(Step(l, tables, one, line), tables)
  {
    var a := l.automaton;
    var states := AddIfAbsent(a.states, line.state);
    AddIfAbsentDistinct(a.states, line.state);
    ListValidGrown(a.initialStates, a.states, states, a.zero);
    ListValidGrown(a.finalStates, a.states, states, a.zero);
    UpdateKeepsListValid(a.finalStates, states, line.state, EmptyLabel(WeightOr(line.weight, one)), a.zero);
  }

  /** Loading yields a valid automaton: distinct states, arcs between them, valid terminal lists. */
  lemma {:induction false} LoadValid<W>(lines: seq<ParsedLine<W>>, tables: Tables, one: W, zero: W, inputSymbols: seq<string>, outputSymbols: seq<string>)
    requires Distinct(inputSymbols) && Distinct(outputSymbols) && (tables.shared ==> inputSymbols == outputSymbols)
    ensures Load(lines, tables, one, Start(zero, inputSymbols, outputSymbols)).automaton.Valid()
    ensures SymbolsValid(Load(lines, tables, one, Start(zero, inputSymbols, outputSymbols)), tables)
  {
    if lines != [] {
      LoadValid(lines[..|lines| - 1], tables, one, zero, inputSymbols, outputSymbols);
      StepValid(Load(lines[..|lines| - 1], tables, one, Start(zero, inputSymbols, outputSymbols)), tables, one, lines[|lines| - 1]);
    }
  }

  /** The states are exactly those some line mentions. */
  lemma {:induction false} LoadStates<W>(lines: seq<ParsedLine<W>>, tables: Tables, one: W, zero: W, inputSymbols: seq<string>, outputSymbols: seq<string>)
    ensures forall s :: s in Load(lines, tables, one, Start(zero, inputSymbols, outputSymbols)).automaton.states <==>
      Mentioned(lines, s)
  {
    if lines != [] {
      var n := |lines| - 1;
      LoadStates(lines[..n], tables, one, zero, inputSymbols, outputSymbols);
      StepStates(Load(lines[..n], tables, one, Start(zero, inputSymbols, outputSymbols)), tables, one, lines[n]);
      MentionedSplit(lines);
    }
  }

  /** A state is mentioned in the lines when it is mentioned before the last line or in it. */
  lemma MentionedSplit<W>(lines: seq<ParsedLine<W>>)
    requires lines != []
    ensures forall s :: Mentioned(lines, s) <==> Mentioned(lines[..|lines| - 1], s) || Mentions(lines[|lines| - 1], s)
  {
    var n := |lines| - 1;
    forall s ensures Mentioned(lines, s) <==> Mentioned(lines[..n], s) || Mentions(lines[n], s)
    {
      if exists i :: 0 <= i < |lines| && Mentions(lines[i], s) {
        var i :| 0 <= i < |lines| && Mentions(lines[i], s);
        if i < n {
          assert lines[..n][i] == lines[i];
        }
      }
      if exists i :: 0 <= i < n && Mentions(lines[..n][i], s) {
        var i :| 0 <= i < n && Mentions(lines[..n][i], s);
        assert lines[..n][i] == lines[i];
      }
    }
  }

  /** A step adds the states its line mentions and no others. */
  lemma StepStates<W>(l: Loading<W>, tables: Tables, one: W, line: ParsedLine<W>)
    ensures forall s :: s in Step(l, tables, one, line).automaton.states <==> s in l.automaton.states || Mentions(line, s)
  {
    if line.Transition? {
      var middle := ArcStates(l, one, line.source, line.destination);
      assert Step(l, tables, one, line).automaton.states == middle.automaton.states;
    }
  }

  /**
   * The start state is the first transition's source, with weight one; a
   * file without transitions has no start state.
   */
  lemma {:induction false} LoadStart<W>(lines: seq<ParsedLine<W>>, tables: Tables, one: W, zero: W, inputSymbols: seq<string>, outputSymbols: seq<string>)
    requires one != zero
    ensures var l := Load(lines, tables, one, Start(zero, inputSymbols, outputSymbols));
      && l.seenState == FirstSource(lines).Some?
      && l.automaton.initialStates == if FirstSource(lines).Some? then [(FirstSource(lines).value, EmptyLabel(one))] else []
  {
    if lines != [] {
      var n := |lines| - 1;
      LoadStart(lines[..n], tables, one, zero, inputSymbols, outputSymbols);
      LoadZero(lines[..n], tables, one, zero, inputSymbols, outputSymbols);
      FirstSourceOfPrefix(lines);
      var before := Load(lines[..n], tables, one, Start(zero, inputSymbols, outputSymbols));
      if lines[n].Transition? && !before.seenState {
        assert SetIn(before.automaton.initialStates, lines[n].source, EmptyLabel(one)) == [(lines[n].source, EmptyLabel(one))];
      }
    }
  }

  /** The first source of all lines: that of all but the last, unless they have none. */
  lemma {:induction false} FirstSourceOfPrefix<W>(lines: seq<ParsedLine<W>>)
    requires lines != []
    ensures FirstSource(lines) ==
      if FirstSource(lines[..|lines| - 1]).Some? then FirstSource(lines[..|lines| - 1])
      else if lines[|lines| - 1].Transition? then Some(lines[|lines| - 1].source)
      else None
  {
    if |lines| > 1 {
      assert lines[1..][..|lines[1..]| - 1] == lines[..|lines| - 1][1..];
      FirstSourceOfPrefix(lines[1..]);
    }
  }

  /** A compressed label keeps its meaning when the alphabet grows at the end. */
  lemma ExpandedGrownSequence(symbols: seq<string>, grown: seq<string>, c: SequenceLabel<nat>)
    requires symbols <= grown && IdsIn(|symbols|, c)
    ensures IdsIn(|grown|, c) && ExpandedSequence(grown, c) == ExpandedSequence(symbols, c)
  {
    if c.Sequence? {
      assert SymbolsAt(grown, c.symbols) == SymbolsAt(symbols, c.symbols);
    }
  }

  /** The arc a transition line makes, as read back through the final alphabets. */
  ghost predicate ArcOfLine<W>(arc: Arc<nat, AttLabel<W>>, line: ParsedLine<W>, tables: Tables, one: W,
                                   inputSymbols: seq<string>, outputSymbols: seq<string>)
    requires line.Transition?
  {
    && arc.source == line.source && arc.destination == line.destination
    && arc.arcLabel.weight == WeightOr(line.weight, one)
    && IdsIn(|inputSymbols|, arc.arcLabel.input)
    && ExpandedSequence(inputSymbols, arc.arcLabel.input) == GetSymbol(tables.inputEmpty, line.inputSymbol)
    && IdsIn(|outputSymbols|, arc.arcLabel.output)
    && ExpandedSequence(outputSymbols, arc.arcLabel.output) == GetSymbol(tables.outputEmpty, line.outputSymbol)
  }

  /**
   * One arc per transition line, in file order, with the line's states and
   * weight (one if none); its compressed input and output labels, read back
   * through the alphabets, are the line's symbols, the empty symbol reading
   * as the empty sequence.  The alphabets only grow.
   */
  lemma {:induction false} LoadArcs<W>(lines: seq<ParsedLine<W>>, tables: Tables, one: W, zero: W, inputSymbols: seq<string>, outputSymbols: seq<string>)
    requires Distinct(inputSymbols) && Distinct(outputSymbols) && (tables.shared ==> inputSymbols == outputSymbols)
    ensures var l := Load(lines, tables, one, Start(zero, inputSymbols, outputSymbols));
      && inputSymbols <= l.inputSymbols && outputSymbols <= l.outputSymbols
      && |l.automaton.arcs| == |Transitions(lines)|
      && forall k :: 0 <= k < |Transitions(lines)| ==>
           ArcOfLine(l.automaton.arcs[k], Transitions(lines)[k], tables, one, l.inputSymbols, l.outputSymbols)
  {
    if lines != [] {
      var n := |lines| - 1;
      var start := Start(zero, inputSymbols, outputSymbols);
      LoadArcs(lines[..n], tables, one, zero, inputSymbols, outputSymbols);
      LoadValid(lines[..n], tables, one, zero, inputSymbols, outputSymbols);
      var before := Load(lines[..n], tables, one, start);
      var after := Load(lines, tables, one, start);
      ArcStepGrows(before, tables, one, lines[n]);
      forall k | 0 <= k < |Transitions(lines[..n])|
        ensures ArcOfLine(after.automaton.arcs[k], Transitions(lines)[k], tables, one, after.inputSymbols, after.outputSymbols)
      {
        var arc := before.automaton.arcs[k];
        assert after.automaton.arcs[k] == arc;
        ExpandedGrownSequence(before.inputSymbols, after.inputSymbols, arc.arcLabel.input);
        ExpandedGrownSequence(before.outputSymbols, after.outputSymbols, arc.arcLabel.output);
      }
      if lines[n].Transition? {
        LastArc(before, tables, one, lines[n]);
      }
    }
  }

  /** A step only appends to the alphabets. */
  lemma ArcStepGrows<W>(l: Loading<W>, tables: Tables, one: W, line: ParsedLine<W>)
    requires SymbolsValid(l, tables)
    ensures l.inputSymbols <= Step(l, tables, one, line).inputSymbols
    ensures l.outputSymbols <= Step(l, tables, one, line).outputSymbols
  {
    if line.Transition? {
      var input := GetSymbol(tables.inputEmpty, line.inputSymbol);
      var output := GetSymbol(tables.outputEmpty, line.outputSymbol);
      InternedProperties(l.inputSymbols, input.Symbols());
      var inputSymbols := Interned(l.inputSymbols, input.Symbols());
      var outputBefore := if tables.shared then inputSymbols else l.outputSymbols;
      InternedProperties(outputBefore, output.Symbols());
    }
  }

  /** The arc a transition step appends reads back as the line's symbols. */
  lemma LastArc<W>(l: Loading<W>, tables: Tables, one: W, line: ParsedLine<W>)
    requires SymbolsValid(l, tables) && line.Transition?
    ensures var after := Step(l, tables, one, line);
      ArcOfLine(after.automaton.arcs[|after.automaton.arcs| - 1], line, tables, one, after.inputSymbols, after.outputSymbols)
  {
    var after := Step(l, tables, one, line);
    var input := GetSymbol(tables.inputEmpty, line.inputSymbol);
    var output := GetSymbol(tables.outputEmpty, line.outputSymbol);
    InternedProperties(l.inputSymbols, input.Symbols());
    var inputSymbols := Interned(l.inputSymbols, input.Symbols());
    var outputBefore := if tables.shared then inputSymbols else l.outputSymbols;
    InternedProperties(outputBefore, output.Symbols());
    var outputSymbols := Interned(outputBefore, output.Symbols());
    SequenceRoundTrip(inputSymbols, input);
    SequenceRoundTrip(outputSymbols, output);
    ExpandedGrownSequence(inputSymbols, after.inputSymbols, CompressedSequence(inputSymbols, input));
  }

  /**
   * The final label of every state comes from the last final-state line for
   * it, with weight one when that line has none; a state without such a
   * line has final label zero.
   */
  lemma {:induction false} LoadFinal<W>(lines: seq<ParsedLine<W>>, tables: Tables, one: W, zero: W, inputSymbols: seq<string>, outputSymbols: seq<string>, s: nat)
    requires Distinct(inputSymbols) && Distinct(outputSymbols) && (tables.shared ==> inputSymbols == outputSymbols)
    ensures var a := Load(lines, tables, one, Start(zero, inputSymbols, outputSymbols)).automaton;
      && Distinct(Keys(a.finalStates))
      && a.TerminalLabel(Backward, s) == match LastFinal(lines, s)
           case None => EmptyLabel(zero)
           case Some(weight) => EmptyLabel(WeightOr(weight, one))
  {
    LoadValid(lines, tables, one, zero, inputSymbols, outputSymbols);
    if lines != [] {
      var n := |lines| - 1;
      var start := Start(zero, inputSymbols, outputSymbols);
      LoadFinal(lines[..n], tables, one, zero, inputSymbols, outputSymbols, s);
      LoadValid(lines[..n], tables, one, zero, inputSymbols, outputSymbols);
      LoadZero(lines[..n], tables, one, zero, inputSymbols, outputSymbols);
      StepFinal(Load(lines[..n], tables, one, start), tables, one, lines[n], s);
    }
  }

  /**
   * A final-state line for s sets its final label; any other line leaves it
   * as it was.
   */
  lemma StepFinal<W>(l: Loading<W>, tables: Tables, one: W, line: ParsedLine<W>, s: nat)
    requires l.automaton.Valid() && l.automaton.zero.input == EmptySequence && l.automaton.zero.output == EmptySequence
    ensures Distinct(Keys(Step(l, tables, one, line).automaton.finalStates))
    ensures Step(l, tables, one, line).automaton.TerminalLabel(Backward, s) ==
      if line.Final? && line.state == s then EmptyLabel(WeightOr(line.weight, one))
      else l.automaton.TerminalLabel(Backward, s)
  {
    if line.Final? {
      FinalStepLabel(l, one, line.state, line.weight, s);
    } else {
      var middle := ArcStates(l, one, line.source, line.destination);
      assert Step(l, tables, one, line).automaton.finalStates == middle.automaton.finalStates == l.automaton.finalStates;
    }
  }

  lemma FinalStepLabel<W>(l: Loading<W>, one: W, state: nat, weight: Option<W>, s: nat)
    requires l.automaton.Valid() && l.automaton.zero.input == EmptySequence && l.automaton.zero.output == EmptySequence
    ensures Distinct(Keys(FinalStep(l, one, state, weight).automaton.finalStates))
    ensures FinalStep(l, one, state, weight).automaton.TerminalLabel(Backward, s) ==
      if state == s then EmptyLabel(WeightOr(weight, one)) else l.automaton.TerminalLabel(Backward, s)
  {
    var a := l.automaton;
    var states := AddIfAbsent(a.states, state);
    var w := EmptyLabel(WeightOr(weight, one));
    UpdateKeepsListValid(a.finalStates, states, state, w, a.zero);
  }

  /** The automaton's zero stays the terminal label with weight zero. */
  lemma {:induction false} LoadZero<W>(lines: seq<ParsedLine<W>>, tables: Tables, one: W, zero: W, inputSymbols: seq<string>, outputSymbols: seq<string>)
    ensures Load(lines, tables, one, Start(zero, inputSymbols, outputSymbols)).automaton.zero == EmptyLabel(zero)
  {
    if lines != [] {
      LoadZero(lines[..|lines| - 1], tables, one, zero, inputSymbols, outputSymbols);
    }
  }

  /**
   * readAutomaton: the lines are read in order into a new automaton whose
   * descriptor holds the input and the output table's alphabets, which may
   * be one and the same.  Compressing the labels adds symbols the alphabets
   * do not hold yet.
   */
  method ReadAutomaton<W(==)>(lines: seq<ParsedLine<W>>, inputTable: SymbolTable, outputTable: SymbolTable, one: W, zero: W)
    returns (automaton: Automaton<nat, AttLabel<W>>, descriptor: Tag<string>)
    requires inputTable.alphabet.Valid() && outputTable.alphabet.Valid()
    modifies inputTable.alphabet, outputTable.alphabet
    ensures fresh(automaton) && automaton.Valid()
    ensures inputTable.alphabet.Valid() && outputTable.alphabet.Valid()
    ensures var l := Load(lines, Tables(inputTable.emptySymbol, outputTable.emptySymbol, inputTable.alphabet == outputTable.alphabet), one,
                          Start(zero, old(inputTable.alphabet.symbols), old(outputTable.alphabet.symbols)));
      && automaton.Value() == l.automaton
      && inputTable.alphabet.symbols == l.inputSymbols
      && outputTable.alphabet.symbols == l.outputSymbols
    ensures descriptor == CompositeTag([AlphabetTag(inputTable.alphabet), AlphabetTag(outputTable.alphabet), NoTag])
  {
    descriptor := CompositeTag([AlphabetTag(inputTable.alphabet), AlphabetTag(outputTable.alphabet), NoTag]);
    automaton := new Automaton<nat, AttLabel<W>>(EmptyLabel(zero));
    ghost var tables := Tables(inputTable.emptySymbol, outputTable.emptySymbol, inputTable.alphabet == outputTable.alphabet);
    ghost var start := Start(zero, inputTable.alphabet.symbols, outputTable.alphabet.symbols);
    var seenState := false;
    for i := 0 to |lines|
      invariant automaton.Valid() && inputTable.alphabet.Valid() && outputTable.alphabet.Valid()
      invariant var l := Load(lines[..i], tables, one, start);
        && automaton.Value() == l.automaton
        && inputTable.alphabet.symbols == l.inputSymbols
        && outputTable.alphabet.symbols == l.outputSymbols
        && seenState == l.seenState
    {
      LoadPrefix(lines, tables, one, start, i);
      seenState := ReadLine(automaton, inputTable, outputTable, seenState, one, lines[i]);
    }
    assert lines[..|lines|] == lines;
  }

  /** The action on one line: AddArc on a transition line, AddFinal on a final line. */
  method ReadLine<W(==)>(automaton: Automaton<nat, AttLabel<W>>, inputTable: SymbolTable, outputTable: SymbolTable,
                         seenState: bool, one: W, line: ParsedLine<W>)
    returns (seen: bool)
    requires automaton.Valid() && inputTable.alphabet.Valid() && outputTable.alphabet.Valid()
    modifies automaton, inputTable.alphabet, outputTable.alphabet
    ensures automaton.Valid() && inputTable.alphabet.Valid() && outputTable.alphabet.Valid()
    ensures var l := Step(Loading(old(automaton.Value()), old(inputTable.alphabet.symbols), old(outputTable.alphabet.symbols), seenState),
                          Tables(inputTable.emptySymbol, outputTable.emptySymbol, inputTable.alphabet == outputTable.alphabet), one, line);
      && automaton.Value() == l.automaton
      && inputTable.alphabet.symbols == l.inputSymbols
      && outputTable.alphabet.symbols == l.outputSymbols
      && seen == l.seenState
  {
    match line
    case Transition(source, destination, inputSymbol, outputSymbol, weight) =>
      seen := AddArcLine(automaton, inputTable, outputTable, seenState, one, source, destination, inputSymbol, outputSymbol, weight);
    case Final(state, weight) =>
      AddFinalLine(automaton, one, state, weight);
      seen := seenState;
  }

  /** The AddArc action on one transition line; seenState is the action's own flag. */
  method AddArcLine<W(==)>(automaton: Automaton<nat, AttLabel<W>>, inputTable: SymbolTable, outputTable: SymbolTable,
                           seenState: bool, one: W,
                           source: nat, destination: nat, inputSymbol: string, outputSymbol: string, weight: Option<W>)
    returns (seen: bool)
    requires automaton.Valid() && inputTable.alphabet.Valid() && outputTable.alphabet.Valid()
    modifies automaton, inputTable.alphabet, outputTable.alphabet
    ensures automaton.Valid() && inputTable.alphabet.Valid() && outputTable.alphabet.Valid()
    ensures var l := ArcStep(Loading(old(automaton.Value()), old(inputTable.alphabet.symbols), old(outputTable.alphabet.symbols), seenState),
                             Tables(inputTable.emptySymbol, outputTable.emptySymbol, inputTable.alphabet == outputTable.alphabet), one,
                             source, destination, inputSymbol, outputSymbol, weight);
      && automaton.Value() == l.automaton
      && inputTable.alphabet.symbols == l.inputSymbols
      && outputTable.alphabet.symbols == l.outputSymbols
      && seen == l.seenState
  {
    AddArcStates(automaton, seenState, one, source, destination);
    seen := true;
    AddArcLabel(automaton, inputTable, outputTable, one, source, destination, inputSymbol, outputSymbol, weight);
  }

  /** The first half of AddArc: the states, and the start state on the first transition. */
  method AddArcStates<W(==)>(automaton: Automaton<nat, AttLabel<W>>, seenState: bool, one: W, source: nat, destination: nat)
    requires automaton.Valid()
    modifies automaton
    ensures automaton.Valid()
    ensures automaton.Value() == ArcStates(Loading(old(automaton.Value()), [], [], seenState), one, source, destination).automaton
  {
    if !automaton.HasState(source) {
      var added := automaton.AddState(source);
    }
    if !seenState {
      // The first state is the start state.
      var updated := automaton.SetTerminalLabel(Forward, source, EmptyLabel(one));
    }
    if !automaton.HasState(destination) {
      var added := automaton.AddState(destination);
    }
  }

  /** The second half of AddArc: compress the labels and add the arc between states already present. */
  method AddArcLabel<W(==)>(automaton: Automaton<nat, AttLabel<W>>, inputTable: SymbolTable, outputTable: SymbolTable, one: W,
                            source: nat, destination: nat, inputSymbol: string, outputSymbol: string, weight: Option<W>)
    requires automaton.Valid() && inputTable.alphabet.Valid() && outputTable.alphabet.Valid()
    requires source in automaton.states && destination in automaton.states
    modifies automaton, inputTable.alphabet, outputTable.alphabet
    ensures automaton.Valid() && inputTable.alphabet.Valid() && outputTable.alphabet.Valid()
    ensures var l := ArcAppend(Loading(old(automaton.Value()), old(inputTable.alphabet.symbols), old(outputTable.alphabet.symbols), true),
                               Tables(inputTable.emptySymbol, outputTable.emptySymbol, inputTable.alphabet == outputTable.alphabet), one,
                               source, destination, inputSymbol, outputSymbol, weight);
      && automaton.Value() == l.automaton
      && inputTable.alphabet.symbols == l.inputSymbols
      && outputTable.alphabet.symbols == l.outputSymbols
  {
    var input := GetSymbol(inputTable.emptySymbol, inputSymbol);
    var output := GetSymbol(outputTable.emptySymbol, outputSymbol);
    var compressedInput := CompressSequence(inputTable.alphabet, input);
    ghost var inputSymbols := inputTable.alphabet.symbols;
    var compressedOutput := CompressSequence(outputTable.alphabet, output);
    assert inputTable.alphabet != outputTable.alphabet ==> inputTable.alphabet.symbols == inputSymbols;
    var added := automaton.AddArc(source, destination, AttLabel(compressedInput, compressedOutput, WeightOr(weight, one)));
  }

  /** The AddFinalState action on one final-state line. */
  method AddFinalLine<W(==)>(automaton: Automaton<nat, AttLabel<W>>, one: W, state: nat, weight: Option<W>)
    requires automaton.Valid()
    modifies automaton
    ensures automaton.Valid()
    ensures automaton.Value() == FinalStep(Loading(old(automaton.Value()), [], [], false), one, state, weight).automaton
  {
    var w := WeightOr(weight, one);
    if !automaton.HasState(state) {
      var added := automaton.AddState(state);
    }
    var updated := automaton.SetTerminalLabel(Backward, state, EmptyLabel(w));
  }
}
