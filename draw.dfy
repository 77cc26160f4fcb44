// The Graphviz dot exporter of include/flipsta/draw.hpp.  Each state
// becomes a circle with its name inside; a start state is drawn bold, a
// final state with a double border, and their labels, unless they are one,
// go next to the node.  Each arc becomes an edge with its label.  Streaming
// a state or a label into an ostream is a function to its text, passed in.
module Draw {
  import opened Core
  import opened ExplicitAutomaton

  // makePrintable

  /** The text a character becomes: a double quote gets a backslash before it. */
  function EscapedChar(c: char): string
  {
    if c == '"' then ['\\', '"'] else [c]
  }

  /** makePrintable on streamed text: every double quote escaped, every other character copied. */
  function Escaped(s: string): string
  {
    if s == [] then [] else EscapedChar(s[0]) + Escaped(s[1..])
  }

  lemma {:induction false} EscapedAppend(a: string, b: string)
    ensures Escaped(a + b) == Escaped(a) + Escaped(b)
  {
    if a != [] {
      assert (a + b)[0] == a[0];
      assert (a + b)[1..] == a[1..] + b;
      EscapedAppend(a[1..], b);
      assert Escaped(a + b) == EscapedChar(a[0]) + (Escaped(a[1..]) + Escaped(b));
    } else {
      assert a + b == b;
    }
  }

  /** How dot reads the inside of a quoted string: \" stands for a double quote, any other character for itself. */
  function Unescaped(s: string): string
  {
    if s == [] then []
    else if |s| >= 2 && s[0] == '\\' && s[1] == '"' then ['"'] + Unescaped(s[2..])
    else [s[0]] + Unescaped(s[1..])
  }

  /** Every double quote in the text has a backslash before it. */
  predicate NoBareQuote(s: string)
  {
    forall i :: 0 <= i < |s| && s[i] == '"' ==> 0 < i && s[i - 1] == '\\'
  }

  /** An escaped text never starts with a double quote. */
  lemma EscapedStart(s: string)
    ensures Escaped(s) != [] ==> Escaped(s)[0] != '"'
  {
  }

  /**
   * Escaping is undone by dot's reading of the quoted string, and leaves no
   * double quote that would end the string early.
   */
  lemma {:induction false} EscapedRoundTrip(s: string)
    ensures Unescaped(Escaped(s)) == s
    ensures NoBareQuote(Escaped(s))
  {
    if s != [] {
      EscapedRoundTrip(s[1..]);
      EscapedStart(s[1..]);
      var rest := Escaped(s[1..]);
      var e := Escaped(s);
      if s[0] == '"' {
        assert e[2..] == rest;
      } else {
        assert e[1..] == rest;
        assert e == [s[0]] + rest;
      }
      forall i | 0 <= i < |e| && e[i] == '"' ensures 0 < i && e[i - 1] == '\\' {
        if s[0] == '"' {
          if i >= 2 {
            assert e[i] == rest[i - 2];
            if i == 2 {
              assert false;
            } else {
              assert e[i - 1] == rest[i - 3];
            }
          }
        } else {
          assert i > 0;
          assert e[i] == rest[i - 1];
          if i >= 2 {
            assert e[i - 1] == rest[i - 2];
          }
        }
      }
    }
  }

  /** makePrintable, copying character by character. */
  method MakePrintable(text: string) returns (result: string)
    ensures result == Escaped(text)
  {
    result := "";
    for i := 0 to |text|
      invariant result == Escaped(text[..i])
    {
      if text[i] == '"' {
        result := result + "\\\"";
      } else {
        result := result + [text[i]];
      }
      assert text[..i + 1] == text[..i] + [text[i]];
      EscapedAppend(text[..i], [text[i]]);
    }
    assert text[..|text|] == text;
  }

  /** makePrintable on a pair: both components printable, in parentheses. */
  function PrintablePair<A, B>(showFirst: A -> string, showSecond: B -> string, p: (A, B)): (r: string)
    ensures NoBareQuote(r)
  {
    var first := Escaped(showFirst(p.0));
    var second := Escaped(showSecond(p.1));
    EscapedRoundTrip(showFirst(p.0));
    EscapedRoundTrip(showSecond(p.1));
    EscapedStart(showFirst(p.0));
    EscapedStart(showSecond(p.1));
    QuoteFreeJoin("(", first);
    QuoteFreeJoin("(" + first, ", ");
    QuoteFreeJoin("(" + first + ", ", second);
    QuoteFreeJoin("(" + first + ", " + second, ")");
    "(" + first + ", " + second + ")"
  }

  /** Joining two texts leaves no bare double quote when the second does not start with one. */
  lemma QuoteFreeJoin(a: string, b: string)
    requires NoBareQuote(a) && NoBareQuote(b)
    requires b != [] ==> b[0] != '"'
    ensures NoBareQuote(a + b)
  {
    var ab := a + b;
    forall i | 0 <= i < |ab| && ab[i] == '"' ensures 0 < i && ab[i - 1] == '\\' {
      if i > |a| {
        assert b[i - |a|] == '"';
        assert ab[i - 1] == b[i - 1 - |a|];
      }
    }
  }

  // The text of a drawing.

  const Header: string :=
    "digraph flipstaGraph {\n"
    + "/*  This file has been produced by the Flipsta library.\n"
    + "    Generate a picture from this using Graphviz dot, e.g.\n"
    + "        dot -Tpdf automaton.dot -o automaton.pdf\n"
    + "*/\n\n"
  const Indent: string := "  "
  const ArcIndent: string := "    "
  const LeftToRight: string := "  rankdir=\"LR\";\n"
  const Footer: string := "}\n"
  const Bold: string := ",style=bold"
  const DoubleBorder: string := ",peripheries=2"

  const XLabelOpen: string := ",xlabel=\""

  /** The attribute that puts a text next to a node. */
  function XLabel(outside: string): string
  {
    XLabelOpen + outside + "\""
  }

  /** The text of a terminal label, when it is shown: not for zero, not for one. */
  function Shown<L(==)>(l: L, zero: L, one: L, showLabel: L -> string): string
  {
    if l != zero && l != one then Escaped(showLabel(l)) else ""
  }

  /**
   * The outside label as draw.hpp:112-127 writes it: the start label's text,
   * then " / " and the text of ... the start label again, where the final
   * label's was meant.
   */
  function OutsideLabelAsWritten<L(==)>(start: L, final: L, zero: L, one: L, showLabel: L -> string): string
  {
    var fromStart := Shown(start, zero, one, showLabel);
    if final != zero && final != one then
      (if fromStart != [] then fromStart + " / " else fromStart) + Escaped(showLabel(start))
    else fromStart
  }

  /** The outside label as intended: the start label's text, then " / " and the final label's. */
  function OutsideLabel<L(==)>(start: L, final: L, zero: L, one: L, showLabel: L -> string): string
  {
    var fromStart := Shown(start, zero, one, showLabel);
    if final != zero && final != one then
      (if fromStart != [] then fromStart + " / " else fromStart) + Escaped(showLabel(final))
    else fromStart
  }

  /**
   * The outside label shows the start label's text first and the final
   * label's last, each when that label is neither zero nor one, and is empty
   * when neither is shown.
   */
  lemma OutsideLabelShowsBoth<L>(start: L, final: L, zero: L, one: L, showLabel: L -> string)
    ensures var r := OutsideLabel(start, final, zero, one, showLabel);
      && (start != zero && start != one ==> Escaped(showLabel(start)) <= r)
      && (final != zero && final != one ==> IsSuffix(Escaped(showLabel(final)), r))
      && ((start == zero || start == one) && (final == zero || final == one) ==> r == [])
      && (start != zero && start != one && final != zero && final != one && Escaped(showLabel(start)) != [] ==>
            r == Escaped(showLabel(start)) + " / " + Escaped(showLabel(final)))
  {
  }

  /**
   * As written, a shown final label never gets its own text: the text after
   * the start label's is the start label's again, even when the state is not
   * a start state at all.
   */
  lemma OutsideLabelAsWrittenRepeatsStart<L>(start: L, final: L, zero: L, one: L, showLabel: L -> string)
    requires final != zero && final != one
    ensures IsSuffix(Escaped(showLabel(start)), OutsideLabelAsWritten(start, final, zero, one, showLabel))
  {
  }

  /**
   * The input that shows it: a final state with weight "5" that is not a
   * start state gets the text of zero next to it instead of "5".
   */
  lemma OutsideLabelCounterexample()
    ensures OutsideLabelAsWritten("zero", "5", "zero", "one", (l: string) => l) == "zero"
    ensures OutsideLabel("zero", "5", "zero", "one", (l: string) => l) == "5"
  {
    assert Escaped("zero") == "zero";
    assert Escaped("5") == "5";
  }

  predicate IsSuffix(part: string, text: string)
  {
    |part| <= |text| && text[|text| - |part|..] == part
  }

  /** The attributes of a state's node: bold for a start state, a double border for a final one, and the outside label. */
  function NodeAttributes<L(==)>(start: L, final: L, zero: L, one: L, showLabel: L -> string): string
  {
    var outside := OutsideLabel(start, final, zero, one, showLabel);
    (if start != zero then Bold else "")
    + (if final != zero then DoubleBorder else "")
    + (if outside != [] then XLabel(outside) else "")
  }

  /** A state's node line. */
  function NodeLine(name: string, attributes: string): string
  {
    Indent + "\"" + name + "\"" + " [shape=circle" + attributes + "];\n"
  }

  /** An arc's edge line, from the state named `name`. */
  function ArcLine<S, L>(name: string, arc: Arc<S, L>, showState: S -> string, showLabel: L -> string): string
  {
    EdgeLine(name, Escaped(showState(arc.destination)), Escaped(showLabel(arc.arcLabel)))
  }

  /** An edge line between the states named `name` and `destination`, with the label `text`. */
  function EdgeLine(name: string, destination: string, text: string): string
  {
    ArcIndent + "\"" + name + "\" -> \"" + destination + "\" [label=\"" + text + "\"];\n"
  }

  /** Lines written one after another. */
  function Join(lines: seq<string>): string
  {
    if lines == [] then "" else Join(lines[..|lines| - 1]) + lines[|lines| - 1]
  }

  function ArcTexts<S, L>(name: string, arcs: seq<Arc<S, L>>, showState: S -> string, showLabel: L -> string): seq<string>
  {
    seq(|arcs|, k requires 0 <= k < |arcs| => ArcLine(name, arcs[k], showState, showLabel))
  }

  function ArcLines<S, L>(name: string, arcs: seq<Arc<S, L>>, showState: S -> string, showLabel: L -> string): string
  {
    Join(ArcTexts(name, arcs, showState, showLabel))
  }

  /** The lines of one state: its node, then an edge for each arc out of it, most recently added first. */
  function StateLines<S(==), L(==)>(a: AutomatonValue<S, L>, s: S, showState: S -> string, showLabel: L -> string, one: L): string
    requires a.Valid()
  {
    var name := Escaped(showState(s));
    NodeLine(name, NodeAttributes(a.TerminalLabel(Forward, s), a.TerminalLabel(Backward, s), a.zero, one, showLabel))
    + ArcLines(name, a.ArcsOnState(Forward, s), showState, showLabel)
  }

  function StateTexts<S(==), L(==)>(a: AutomatonValue<S, L>, states: seq<S>, showState: S -> string, showLabel: L -> string, one: L): seq<string>
    requires a.Valid()
  {
    seq(|states|, k requires 0 <= k < |states| => StateLines(a, states[k], showState, showLabel, one))
  }

  /** The whole drawing: the header, the layout direction if horizontal, the states in order, the closing brace. */
  function Drawing<S(==), L(==)>(a: AutomatonValue<S, L>, horizontal: bool, showState: S -> string, showLabel: L -> string, one: L): string
    requires a.Valid()
  {
    Header + (if horizontal then LeftToRight else "") + Join(StateTexts(a, a.states, showState, showLabel, one)) + Footer
  }

  // What a drawing shows.

  /** The text has `part` starting at position k. */
  predicate At(text: string, part: string, k: int)
  {
    0 <= k <= |text| - |part| && text[k..k + |part|] == part
  }

  ghost predicate Contains(text: string, part: string)
  {
    exists k :: At(text, part, k)
  }

  lemma ContainsLeft(a: string, b: string, part: string)
    requires Contains(a, part)
    ensures Contains(a + b, part)
  {
    var k :| At(a, part, k);
    assert At(a + b, part, k) by {
      assert (a + b)[k..k + |part|] == a[k..k + |part|];
    }
  }

  lemma ContainsRight(a: string, b: string, part: string)
    requires Contains(b, part)
    ensures Contains(a + b, part)
  {
    var k :| At(b, part, k);
    assert At(a + b, part, |a| + k) by {
      assert (a + b)[|a| + k..|a| + k + |part|] == b[k..k + |part|];
    }
  }

  lemma ContainsItself(part: string)
    ensures Contains(part, part)
  {
    assert At(part, part, 0) by {
      assert part[0..|part|] == part;
    }
  }

  lemma ContainsTransitive(text: string, middle: string, part: string)
    requires Contains(text, middle) && Contains(middle, part)
    ensures Contains(text, part)
  {
    var k :| At(text, middle, k);
    var l :| At(middle, part, l);
    assert At(text, part, k + l) by {
      forall j | 0 <= j < |part| ensures text[k + l + j] == part[j] {
        assert part[j] == middle[l + j] == text[k + l + j];
      }
      assert text[k + l..k + l + |part|] == part;
    }
  }

  lemma PrefixOfAppend(a: string, b: string, c: string, e: string)
    ensures a <= a + b + c + e
  {
    assert (a + b + c + e)[..|a|] == a;
  }

  lemma PrefixOfAppend3(a: string, b: string, c: string)
    ensures a <= a + b + c
  {
    assert (a + b + c)[..|a|] == a;
  }

  lemma SuffixOfAppend(a: string, b: string)
    ensures IsSuffix(b, a + b)
  {
    assert (a + b)[|a|..] == b;
  }

  /** Each line is in the lines joined. */
  lemma {:induction false} JoinContains(lines: seq<string>, i: nat)
    requires i < |lines|
    ensures Contains(Join(lines), lines[i])
  {
    var n := |lines| - 1;
    if i == n {
      ContainsItself(lines[n]);
      ContainsRight(Join(lines[..n]), lines[n], lines[n]);
    } else {
      JoinContains(lines[..n], i);
      assert lines[..n][i] == lines[i];
      ContainsLeft(Join(lines[..n]), lines[n], lines[i]);
    }
  }

  /**
   * A drawing opens with the header and closes with the brace; every state
   * has its node line in it, and every arc its edge line.
   */
  lemma DrawingShowsEverything<S, L>(a: AutomatonValue<S, L>, horizontal: bool, showState: S -> string, showLabel: L -> string, one: L)
    requires a.Valid()
    ensures var d := Drawing(a, horizontal, showState, showLabel, one);
      && Header <= d && IsSuffix(Footer, d)
      && (horizontal ==> Header + LeftToRight <= d)
      && (forall s :: s in a.states ==>
            Contains(d, NodeLine(Escaped(showState(s)), NodeAttributes(a.TerminalLabel(Forward, s), a.TerminalLabel(Backward, s), a.zero, one, showLabel))))
      && (forall arc :: arc in a.arcs ==> Contains(d, ArcLine(Escaped(showState(arc.source)), arc, showState, showLabel)))
  {
    var d := Drawing(a, horizontal, showState, showLabel, one);
    var direction := if horizontal then LeftToRight else "";
    var body := Join(StateTexts(a, a.states, showState, showLabel, one));
    assert Distinct(Keys(a.TerminalStates(Forward))) && Distinct(Keys(a.TerminalStates(Backward)));
    PrefixOfAppend(Header, direction, body, Footer);
    PrefixOfAppend3(Header + direction, body, Footer);
    SuffixOfAppend(Header + direction + body, Footer);
    forall s | s in a.states
      ensures Contains(d, NodeLine(Escaped(showState(s)), NodeAttributes(a.TerminalLabel(Forward, s), a.TerminalLabel(Backward, s), a.zero, one, showLabel)))
    {
      var node := NodeLine(Escaped(showState(s)), NodeAttributes(a.TerminalLabel(Forward, s), a.TerminalLabel(Backward, s), a.zero, one, showLabel));
      StateShown(a, s, showState, showLabel, one);
      StateInDrawing(a, horizontal, showState, showLabel, one, s, node);
    }
    forall arc | arc in a.arcs ensures Contains(d, ArcLine(Escaped(showState(arc.source)), arc, showState, showLabel)) {
      ArcShown(a, arc, showState, showLabel, one);
      StateInDrawing(a, horizontal, showState, showLabel, one, arc.source, ArcLine(Escaped(showState(arc.source)), arc, showState, showLabel));
    }
  }

  /** What a state's lines hold, the drawing holds. */
  lemma StateInDrawing<S, L>(a: AutomatonValue<S, L>, horizontal: bool, showState: S -> string, showLabel: L -> string, one: L, s: S, part: string)
    requires a.Valid() && s in a.states
    requires Contains(StateLines(a, s, showState, showLabel, one), part)
    ensures Contains(Drawing(a, horizontal, showState, showLabel, one), part)
  {
    var texts := StateTexts(a, a.states, showState, showLabel, one);
    var i :| 0 <= i < |a.states| && a.states[i] == s;
    assert texts[i] == StateLines(a, s, showState, showLabel, one);
    JoinContains(texts, i);
    ContainsTransitive(Join(texts), texts[i], part);
    var direction := if horizontal then LeftToRight else "";
    ContainsRight(Header + direction, Join(texts), part);
    ContainsLeft(Header + direction + Join(texts), Footer, part);
  }

  /** A state's lines hold its node line. */
  lemma StateShown<S, L>(a: AutomatonValue<S, L>, s: S, showState: S -> string, showLabel: L -> string, one: L)
    requires a.Valid()
    ensures Contains(StateLines(a, s, showState, showLabel, one),
      NodeLine(Escaped(showState(s)), NodeAttributes(a.TerminalLabel(Forward, s), a.TerminalLabel(Backward, s), a.zero, one, showLabel)))
  {
    var node := NodeLine(Escaped(showState(s)), NodeAttributes(a.TerminalLabel(Forward, s), a.TerminalLabel(Backward, s), a.zero, one, showLabel));
    ContainsItself(node);
    ContainsLeft(node, ArcLines(Escaped(showState(s)), a.ArcsOnState(Forward, s), showState, showLabel), node);
  }

  /** The lines of an arc's source hold the arc's edge line. */
  lemma ArcShown<S, L>(a: AutomatonValue<S, L>, arc: Arc<S, L>, showState: S -> string, showLabel: L -> string, one: L)
    requires a.Valid() && arc in a.arcs
    ensures Contains(StateLines(a, arc.source, showState, showLabel, one), ArcLine(Escaped(showState(arc.source)), arc, showState, showLabel))
  {
    var s := arc.source;
    var name := Escaped(showState(s));
    var out := a.ArcsOnState(Forward, s);
    assert arc in out;
    var i :| 0 <= i < |out| && out[i] == arc;
    var texts := ArcTexts(name, out, showState, showLabel);
    assert texts[i] == ArcLine(name, arc, showState, showLabel);
    JoinContains(texts, i);
    var node := NodeLine(name, NodeAttributes(a.TerminalLabel(Forward, s), a.TerminalLabel(Backward, s), a.zero, one, showLabel));
    ContainsRight(node, Join(texts), texts[i]);
  }

  /** The outside label, and what it holds, is in the attribute that carries it. */
  lemma XLabelContains(outside: string, part: string)
    requires Contains(outside, part)
    ensures Contains(XLabel(outside), part)
  {
    ContainsRight(XLabelOpen, outside, part);
    ContainsLeft(XLabelOpen + outside, "\"", part);
  }

  /**
   * A node's attributes: bold exactly for a start state's node, a double
   * border for a final state's, the texts of labels other than zero and one
   * next to it, and nothing at all for a state that is neither.
   */
  lemma NodeAttributesShow<L>(start: L, final: L, zero: L, one: L, showLabel: L -> string)
    ensures var r := NodeAttributes(start, final, zero, one, showLabel);
      && (start != zero <==> Bold <= r)
      && (final != zero ==> Contains(r, DoubleBorder))
      && (start != zero && start != one ==> Contains(r, Escaped(showLabel(start))))
      && (final != zero && final != one ==> Contains(r, Escaped(showLabel(final))))
      && (start == zero && final == zero ==> r == [])
  {
    var outside := OutsideLabel(start, final, zero, one, showLabel);
    var bold := if start != zero then Bold else "";
    var border := if final != zero then DoubleBorder else "";
    var xlabel := if outside != [] then XLabel(outside) else "";
    var r := NodeAttributes(start, final, zero, one, showLabel);
    assert r == bold + border + xlabel;
    BoldForStart(start, final, zero, one, showLabel);
    if final != zero {
      ContainsItself(border);
      ContainsRight(bold, border, border);
      ContainsLeft(bold + border, xlabel, border);
    }
    OutsideLabelShowsBoth(start, final, zero, one, showLabel);
    if start != zero && start != one {
      var text := Escaped(showLabel(start));
      assert At(outside, text, 0);
      ShownInAttributes(bold + border, outside, text);
    }
    if final != zero && final != one {
      var text := Escaped(showLabel(final));
      assert At(outside, text, |outside| - |text|);
      ShownInAttributes(bold + border, outside, text);
    }
  }

  /** Only a start state's node is drawn bold. */
  lemma BoldForStart<L>(start: L, final: L, zero: L, one: L, showLabel: L -> string)
    ensures start != zero <==> Bold <= NodeAttributes(start, final, zero, one, showLabel)
  {
    var outside := OutsideLabel(start, final, zero, one, showLabel);
    var r := NodeAttributes(start, final, zero, one, showLabel);
    var xlabel := if outside != [] then XLabel(outside) else "";
    if start == zero {
      if final != zero {
        assert r == DoubleBorder + xlabel;
        assert r[1] == 'p';
      }
    } else {
      PrefixOfAppend3(Bold, if final != zero then DoubleBorder else "", xlabel);
    }
  }

  lemma ShownInAttributes(before: string, outside: string, text: string)
    requires Contains(outside, text)
    ensures Contains(before + (if outside != [] then XLabel(outside) else ""), text)
  {
    if outside != [] {
      XLabelContains(outside, text);
      ContainsRight(before, XLabel(outside), text);
    } else {
      assert At(before + "", text, 0);
    }
  }

  /**
   * draw: write the header, the layout direction when horizontal, then for
   * each state in order its node line and an edge line for each arc out of
   * it, and the closing brace.  The text written is returned.
   */
  method Draw<S(==), L(==)>(automaton: AutomatonValue<S, L>, horizontal: bool, showState: S -> string, showLabel: L -> string, one: L)
    returns (file: string)
    requires automaton.Valid()
    ensures file == Drawing(automaton, horizontal, showState, showLabel, one)
  {
    file := Header;
    if horizontal {
      file := file + LeftToRight;
    }
    var body := DrawStates(automaton, automaton.states, showState, showLabel, one);
    file := file + body;
    file := file + Footer;
  }

  /** draw's loop over the states, in order. */
  method DrawStates<S(==), L(==)>(automaton: AutomatonValue<S, L>, states: seq<S>, showState: S -> string, showLabel: L -> string, one: L)
    returns (text: string)
    requires automaton.Valid()
    ensures text == Join(StateTexts(automaton, states, showState, showLabel, one))
  {
    ghost var texts := StateTexts(automaton, states, showState, showLabel, one);
    text := "";
    for i := 0 to |states|
      invariant text == Join(texts[..i])
    {
      assert texts[..i + 1][..i] == texts[..i];
      var block := DrawState(automaton, states[i], showState, showLabel, one);
      text := text + block;
    }
    assert texts[..|states|] == texts;
  }

  /** The body of draw's loop for one state: its node line, then its edge lines. */
  method DrawState<S(==), L(==)>(automaton: AutomatonValue<S, L>, state: S, showState: S -> string, showLabel: L -> string, one: L)
    returns (lines: string)
    requires automaton.Valid()
    ensures lines == StateLines(automaton, state, showState, showLabel, one)
  {
    var startLabel := automaton.TerminalLabel(Forward, state);
    var finalLabel := automaton.TerminalLabel(Backward, state);
    var stateAttributes := DrawAttributes(startLabel, finalLabel, automaton.zero, one, showLabel);
    var name := MakePrintable(showState(state));
    var node := NodeLine(name, stateAttributes);
    var edges := DrawArcs(name, automaton.ArcsOnState(Forward, state), showState, showLabel);
    lines := node + edges;
  }

  /** The attributes of a state's node, from its start and final labels. */
  method DrawAttributes<L(==)>(startLabel: L, finalLabel: L, zero: L, one: L, showLabel: L -> string)
    returns (stateAttributes: string)
    ensures stateAttributes == NodeAttributes(startLabel, finalLabel, zero, one, showLabel)
  {
    stateAttributes := "";
    var outsideLabel := "";
    if startLabel != zero {
      stateAttributes := stateAttributes + Bold;
      if startLabel != one {
        outsideLabel := MakePrintable(showLabel(startLabel));
      }
    }
    ghost var bold := if startLabel != zero then Bold else "";
    assert stateAttributes == bold;
    assert outsideLabel == Shown(startLabel, zero, one, showLabel);
    if finalLabel != zero {
      stateAttributes := stateAttributes + DoubleBorder;
      if finalLabel != one {
        if outsideLabel != [] {
          outsideLabel := outsideLabel + " / ";
        }
        var finalText := MakePrintable(showLabel(finalLabel));
        outsideLabel := outsideLabel + finalText;
      }
    }
    ghost var border := if finalLabel != zero then DoubleBorder else "";
    assert stateAttributes == bold + border;
    assert outsideLabel == OutsideLabel(startLabel, finalLabel, zero, one, showLabel);
    if outsideLabel != [] {
      stateAttributes := stateAttributes + XLabel(outsideLabel);
    }
  }

  /** The edge lines of the arcs out of the state named `name`, in order. */
  method DrawArcs<S, L>(name: string, arcs: seq<Arc<S, L>>, showState: S -> string, showLabel: L -> string)
    returns (lines: string)
    ensures lines == ArcLines(name, arcs, showState, showLabel)
  {
    ghost var texts := ArcTexts(name, arcs, showState, showLabel);
    lines := "";
    for j := 0 to |arcs|
      invariant lines == Join(texts[..j])
    {
      assert texts[..j + 1][..j] == texts[..j];
      var destination := MakePrintable(showState(arcs[j].destination));
      var text := MakePrintable(showLabel(arcs[j].arcLabel));
      lines := lines + EdgeLine(name, destination, text);
    }
    assert texts[..|arcs|] == texts;
  }
}
