// AT&T symbol tables (include/flipsta/att/symbol_table.hpp and the checks
// of source/flipsta/att/symbol_table.cpp).  A symbol table file maps symbol
// names to the numbers 1, 2, 3, ... and optionally a name to 0, the empty
// symbol.  Reading checks that no number and no name occurs twice, that the
// lowest number is 0 or 1 and that the numbers have no gaps, and then adds
// the names to an alphabet in order, so that the symbol with number k gets
// the alphabet id k - 1.  The parsing of the file into (name, number) entries
// is not part of this model; the checks start from those entries.
module AttSymbolTable {
  import opened Wrappers
  import opened ExplicitAutomaton
  import opened Label

  /** The errors the checks raise, with the numbers and names they report. */
  datatype SymbolError =
    | DuplicateIndex(index: nat, existingName: string, name: string)
    | DuplicateName(name: string, existingIndex: nat, index: nat)
    | LowestIndex(index: nat, name: string)
    | NotDense(previous: nat, index: nat, name: string)

  class SymbolTable {
    /** The alphabet of the non-empty symbols; the table always hands out this same one. */
    const alphabet: Alphabet<string>
    var emptySymbol: Option<string>

    /** A new table: a fresh alphabet and no empty symbol. */
    constructor ()
      ensures fresh(alphabet) && alphabet.Valid() && alphabet.symbols == []
      ensures emptySymbol == None
    {
      alphabet := new Alphabet<string>();
      emptySymbol := None;
    }

    predicate HasEmptySymbol()
      reads this
    {
      emptySymbol.Some?
    }

    function EmptySymbol(): (s: string)
      reads this
      requires HasEmptySymbol()
      ensures emptySymbol == Some(s)
    {
      emptySymbol.value
    }

    /** setEmptySymbol: only once. */
    method SetEmptySymbol(symbol: string)
      requires !HasEmptySymbol()
      modifies this
      ensures HasEmptySymbol() && EmptySymbol() == symbol
    {
      emptySymbol := Some(symbol);
    }
  }

  // The entries of the file are (name, number) pairs in file order.  While
  // they are checked they are kept as (number, name) pairs in increasing
  // number order, as the number side of a bimap iterates.

  predicate IndexOrdered(view: seq<(nat, string)>)
  {
    forall i, j :: 0 <= i < j < |view| ==> view[i].0 < view[j].0
  }

  /** The bimap's lookup by number: the name with that number, if any. */
  function NameWithIndex(view: seq<(nat, string)>, index: nat): (r: Option<string>)
    ensures r.Some? <==> exists k :: 0 <= k < |view| && view[k].0 == index
    ensures r.Some? ==> (index, r.value) in view
  {
    if view == [] then None
    else if view[0].0 == index then Some(view[0].1)
    else NameWithIndex(view[1..], index)
  }

  /** The bimap's lookup by name: the number of that name, if any. */
  function IndexWithName(view: seq<(nat, string)>, name: string): (r: Option<nat>)
    ensures r.Some? <==> exists k :: 0 <= k < |view| && view[k].1 == name
    ensures r.Some? ==> (r.value, name) in view
  {
    if view == [] then None
    else if view[0].1 == name then Some(view[0].0)
    else IndexWithName(view[1..], name)
  }

  /** The bimap's insert of a number not present yet: the pair goes to its place in number order. */
  function Insert(view: seq<(nat, string)>, m: (nat, string)): (r: seq<(nat, string)>)
    requires IndexOrdered(view) && NameWithIndex(view, m.0).None?
    ensures IndexOrdered(r)
    ensures multiset(r) == multiset(view) + multiset{m}
  {
    if view == [] then [m]
    else if m.0 < view[0].0 then [m] + view
    else
      var rest := Insert(view[1..], m);
      InsertedAbove(view, m, rest);
      assert view == [view[0]] + view[1..];
      [view[0]] + rest
  }

  /** What Insert puts after the first pair of the view all have higher numbers than that pair. */
  lemma InsertedAbove(view: seq<(nat, string)>, m: (nat, string), rest: seq<(nat, string)>)
    requires IndexOrdered(view) && view != [] && view[0].0 < m.0
    requires multiset(rest) == multiset(view[1..]) + multiset{m}
    ensures forall k :: 0 <= k < |rest| ==> view[0].0 < rest[k].0
  {
    forall k | 0 <= k < |rest| ensures view[0].0 < rest[k].0 {
      assert rest[k] in multiset(rest);
      if rest[k] != m {
        assert rest[k] in multiset(view[1..]);
        var j :| 0 <= j < |view[1..]| && view[1..][j] == rest[k];
        assert view[j + 1] == rest[k];
      }
    }
  }

  /**
   * The first loop: each entry in file order is rejected when its number or
   * (failing that) its name is taken, and inserted otherwise.
   */
  function Collect(entries: seq<(string, nat)>): (r: Result<seq<(nat, string)>, SymbolError>)
    ensures r.Ok? ==> IndexOrdered(r.value)
  {
    if entries == [] then Ok([])
    else
      var before := Collect(entries[..|entries| - 1]);
      var (name, index) := entries[|entries| - 1];
      if before.Err? then before
      else if NameWithIndex(before.value, index).Some? then
        Err(DuplicateIndex(index, NameWithIndex(before.value, index).value, name))
      else if IndexWithName(before.value, name).Some? then
        Err(DuplicateName(name, IndexWithName(before.value, name).value, index))
      else Ok(Insert(before.value, (index, name)))
  }

  /** The gap check: the first number that is not one more than the one before it. */
  function FirstGap(view: seq<(nat, string)>, previous: nat): Option<SymbolError>
  {
    if view == [] then None
    else if previous + 1 != view[0].0 then Some(NotDense(previous, view[0].0, view[0].1))
    else FirstGap(view[1..], view[0].0)
  }

  function Names(view: seq<(nat, string)>): (names: seq<string>)
    ensures |names| == |view| && forall k :: 0 <= k < |view| ==> names[k] == view[k].1
  {
    seq(|view|, k requires 0 <= k < |view| => view[k].1)
  }

  /** What a symbol table holds: its empty symbol, if any, and the alphabet's symbols in id order. */
  datatype Table = Table(emptySymbol: Option<string>, symbols: seq<string>)

  /**
   * The checks after the first loop: an empty table is fine; the lowest
   * number must be 0 or 1; 0 names the empty symbol; the remaining numbers
   * must run 1, 2, 3, ...; their names make up the alphabet in order.
   */
  function FromView(view: seq<(nat, string)>): Result<Table, SymbolError>
  {
    if view == [] then Ok(Table(None, []))
    else if view[0].0 != 0 && view[0].0 != 1 then Err(LowestIndex(view[0].0, view[0].1))
    else
      var empty := if view[0].0 == 0 then Some(view[0].1) else None;
      var rest := if view[0].0 == 0 then view[1..] else view;
      match FirstGap(rest, 0)
      case Some(e) => Err(e)
      case None => Ok(Table(empty, Names(rest)))
  }

  /** readSymbolTableFrom after parsing: the table the entries describe, or the error they raise. */
  function ReadTable(entries: seq<(string, nat)>): Result<Table, SymbolError>
  {
    match Collect(entries)
    case Err(e) => Err(e)
    case Ok(view) => FromView(view)
  }

  // What the checks accept, said without the bimap.

  /** No number and no name occurs twice. */
  predicate NoDuplicates(entries: seq<(string, nat)>)
  {
    forall i, j :: 0 <= i < j < |entries| ==> entries[i].1 != entries[j].1 && entries[i].0 != entries[j].0
  }

  predicate HasZero(entries: seq<(string, nat)>)
  {
    exists i :: 0 <= i < |entries| && entries[i].1 == 0
  }

  /** The lowest number a valid table has: 0 if some entry has it, else 1. */
  function Lowest(entries: seq<(string, nat)>): nat
  {
    if HasZero(entries) then 0 else 1
  }

  /**
   * A valid symbol table: no number or name twice, and n entries numbered
   * 1 .. n, or 0 .. n - 1 when 0 is used.
   */
  predicate ValidTable(entries: seq<(string, nat)>)
  {
    && NoDuplicates(entries)
    && forall i :: 0 <= i < |entries| ==> Lowest(entries) <= entries[i].1 < Lowest(entries) + |entries|
  }

  /** The entries as (number, name) pairs, in file order. */
  function Swapped(entries: seq<(string, nat)>): (pairs: seq<(nat, string)>)
    ensures |pairs| == |entries|
    ensures forall i :: 0 <= i < |entries| ==> pairs[i] == (entries[i].1, entries[i].0)
  {
    seq(|entries|, i requires 0 <= i < |entries| => (entries[i].1, entries[i].0))
  }

  predicate NamesDistinct(view: seq<(nat, string)>)
  {
    forall k, l :: 0 <= k < l < |view| ==> view[k].1 != view[l].1
  }

  /** The view holds exactly the entries, as (number, name) pairs, with no name twice. */
  ghost predicate ViewOf(entries: seq<(string, nat)>, view: seq<(nat, string)>)
  {
    multiset(view) == multiset(Swapped(entries)) && NamesDistinct(view)
  }

  lemma ViewLength(entries: seq<(string, nat)>, view: seq<(nat, string)>)
    requires ViewOf(entries, view)
    ensures |view| == |entries|
  {
    assert |multiset(view)| == |multiset(Swapped(entries))|;
  }

  lemma EntryInView(entries: seq<(string, nat)>, view: seq<(nat, string)>, i: nat)
    requires ViewOf(entries, view) && i < |entries|
    ensures (entries[i].1, entries[i].0) in view
  {
    assert Swapped(entries)[i] in multiset(Swapped(entries));
  }

  lemma ViewEntry(entries: seq<(string, nat)>, view: seq<(nat, string)>, k: nat) returns (i: nat)
    requires ViewOf(entries, view) && k < |view|
    ensures i < |entries| && entries[i].1 == view[k].0 && entries[i].0 == view[k].1
  {
    assert view[k] in multiset(Swapped(entries));
    i :| 0 <= i < |entries| && Swapped(entries)[i] == view[k];
  }

  /** The first loop succeeds exactly without duplicates, and then holds every entry, in number order. */
  lemma {:induction false} CollectProperties(entries: seq<(string, nat)>)
    ensures Collect(entries).Ok? <==> NoDuplicates(entries)
    ensures Collect(entries).Ok? ==> ViewOf(entries, Collect(entries).value)
  {
    if entries != [] {
      var prefix := entries[..|entries| - 1];
      CollectProperties(prefix);
      if Collect(prefix).Ok? {
        CollectStep(entries, Collect(prefix).value);
      } else {
        assert !NoDuplicates(prefix);
        assert forall i :: 0 <= i < |prefix| ==> prefix[i] == entries[i];
      }
    }
  }

  /** One step of the first loop, from a correct view of the entries before the last one. */
  lemma CollectStep(entries: seq<(string, nat)>, view: seq<(nat, string)>)
    requires entries != [] && Collect(entries[..|entries| - 1]) == Ok(view)
    requires NoDuplicates(entries[..|entries| - 1]) && ViewOf(entries[..|entries| - 1], view)
    ensures Collect(entries).Ok? <==> NoDuplicates(entries)
    ensures Collect(entries).Ok? ==> ViewOf(entries, Collect(entries).value)
  {
    var (name, index) := entries[|entries| - 1];
    if NameWithIndex(view, index).Some? || IndexWithName(view, name).Some? {
      RepeatedEntry(entries, view);
    } else {
      InsertStep(entries, view);
    }
  }

  /** An entry whose number or name the view already holds repeats an earlier entry. */
  lemma RepeatedEntry(entries: seq<(string, nat)>, view: seq<(nat, string)>)
    requires entries != [] && ViewOf(entries[..|entries| - 1], view)
    requires NameWithIndex(view, entries[|entries| - 1].1).Some? || IndexWithName(view, entries[|entries| - 1].0).Some?
    ensures !NoDuplicates(entries)
  {
    var n := |entries| - 1;
    var prefix := entries[..n];
    var k :| 0 <= k < |view| && (view[k].0 == entries[n].1 || view[k].1 == entries[n].0);
    var i := ViewEntry(prefix, view, k);
    assert entries[i] == prefix[i];
  }

  /** The insertion of a new entry: no duplicates so far, and the view grows by exactly that entry. */
  lemma InsertStep(entries: seq<(string, nat)>, view: seq<(nat, string)>)
    requires entries != [] && IndexOrdered(view)
    requires NoDuplicates(entries[..|entries| - 1]) && ViewOf(entries[..|entries| - 1], view)
    requires NameWithIndex(view, entries[|entries| - 1].1).None?
    requires IndexWithName(view, entries[|entries| - 1].0).None?
    ensures NoDuplicates(entries)
    ensures ViewOf(entries, Insert(view, (entries[|entries| - 1].1, entries[|entries| - 1].0)))
  {
    NewEntryDistinct(entries, view);
    InsertedView(entries, view);
  }

  /** A last entry whose number and name the view lacks differs from every earlier entry. */
  lemma NewEntryDistinct(entries: seq<(string, nat)>, view: seq<(nat, string)>)
    requires entries != []
    requires NoDuplicates(entries[..|entries| - 1]) && ViewOf(entries[..|entries| - 1], view)
    requires NameWithIndex(view, entries[|entries| - 1].1).None?
    requires IndexWithName(view, entries[|entries| - 1].0).None?
    ensures NoDuplicates(entries)
  {
    var n := |entries| - 1;
    var prefix := entries[..n];
    forall i | 0 <= i < n ensures entries[i].1 != entries[n].1 && entries[i].0 != entries[n].0 {
      EntryInView(prefix, view, i);
      assert prefix[i] == entries[i];
    }
    forall i, j | 0 <= i < j < n ensures entries[i].1 != entries[j].1 && entries[i].0 != entries[j].0 {
      assert prefix[i] == entries[i] && prefix[j] == entries[j];
    }
  }

  /** Inserting the last entry's pair into the view of the earlier entries gives the view of all of them. */
  lemma InsertedView(entries: seq<(string, nat)>, view: seq<(nat, string)>)
    requires entries != [] && IndexOrdered(view)
    requires ViewOf(entries[..|entries| - 1], view)
    requires NameWithIndex(view, entries[|entries| - 1].1).None?
    requires IndexWithName(view, entries[|entries| - 1].0).None?
    ensures ViewOf(entries, Insert(view, (entries[|entries| - 1].1, entries[|entries| - 1].0)))
  {
    var n := |entries| - 1;
    var prefix := entries[..n];
    var m := (entries[n].1, entries[n].0);
    var after := Insert(view, m);
    assert Swapped(entries) == Swapped(prefix) + [m];
    forall k, l | 0 <= k < l < |after| ensures after[k].1 != after[l].1 {
      DistinctNamesInserted(view, m, after, k, l);
    }
  }

  /** Inserting a pair whose name is new keeps the names distinct. */
  lemma DistinctNamesInserted(view: seq<(nat, string)>, m: (nat, string), after: seq<(nat, string)>, k: nat, l: nat)
    requires multiset(after) == multiset(view) + multiset{m}
    requires NamesDistinct(view)
    requires forall a :: 0 <= a < |view| ==> view[a].1 != m.1
    requires IndexOrdered(after)
    requires k < l < |after|
    ensures after[k].1 != after[l].1
  {
    var x, y := after[k], after[l];
    assert x in multiset(after) && y in multiset(after);
    assert x.0 < y.0;
    if x == m || y == m {
      var other := if x == m then y else x;
      assert other in view;
    } else {
      assert x in view && y in view;
      var a :| 0 <= a < |view| && view[a] == x;
      var b :| 0 <= b < |view| && view[b] == y;
      assert a != b;
    }
  }

  /** In a strictly increasing view, numbers spread out at least as fast as positions. */
  lemma {:induction false} Spread(view: seq<(nat, string)>, k: nat)
    requires IndexOrdered(view) && k < |view|
    ensures view[0].0 + k <= view[k].0
    ensures view[k].0 + (|view| - 1 - k) <= view[|view| - 1].0
  {
    if k > 0 {
      Spread(view, k - 1);
    }
    SpreadBack(view, k);
  }

  lemma {:induction false} SpreadBack(view: seq<(nat, string)>, k: nat)
    requires IndexOrdered(view) && k < |view|
    ensures view[k].0 + (|view| - 1 - k) <= view[|view| - 1].0
    decreases |view| - k
  {
    if k < |view| - 1 {
      SpreadBack(view, k + 1);
    }
  }

  /** Distinct numbers in order, all within n consecutive numbers from lo: they are exactly lo, lo + 1, .... */
  lemma Packed(view: seq<(nat, string)>, lo: nat)
    requires IndexOrdered(view)
    requires forall k :: 0 <= k < |view| ==> lo <= view[k].0 < lo + |view|
    ensures forall k :: 0 <= k < |view| ==> view[k].0 == lo + k
  {
    forall k | 0 <= k < |view| ensures view[k].0 == lo + k {
      Spread(view, k);
    }
  }

  /** No gap after `previous` exactly when the numbers run previous + 1, previous + 2, .... */
  lemma {:induction false} GapFree(view: seq<(nat, string)>, previous: nat)
    ensures FirstGap(view, previous) == None <==> forall k :: 0 <= k < |view| ==> view[k].0 == previous + k + 1
  {
    if view != [] {
      GapFree(view[1..], view[0].0);
      if FirstGap(view, previous) == None {
        assert forall k :: 1 <= k < |view| ==> view[k] == view[1..][k - 1];
      } else if previous + 1 == view[0].0 {
        assert forall k :: 0 <= k < |view| - 1 ==> view[1..][k] == view[k + 1];
      }
    }
  }

  lemma EntryPosition(entries: seq<(string, nat)>, view: seq<(nat, string)>, i: nat) returns (k: nat)
    requires ViewOf(entries, view) && i < |entries|
    ensures k < |view| && view[k] == (entries[i].1, entries[i].0)
  {
    EntryInView(entries, view, i);
    k :| 0 <= k < |view| && view[k] == (entries[i].1, entries[i].0);
  }

  /** Every number within n consecutive numbers from the lowest: the later checks pass. */
  lemma FromViewAcceptsRange(entries: seq<(string, nat)>, view: seq<(nat, string)>)
    requires IndexOrdered(view) && ViewOf(entries, view)
    requires forall i :: 0 <= i < |entries| ==> Lowest(entries) <= entries[i].1 < Lowest(entries) + |entries|
    ensures FromView(view).Ok?
    ensures forall k :: 0 <= k < |view| ==> view[k].0 == Lowest(entries) + k
  {
    var lo := Lowest(entries);
    ViewLength(entries, view);
    forall k | 0 <= k < |view| ensures lo <= view[k].0 < lo + |view| {
      var i := ViewEntry(entries, view, k);
    }
    Packed(view, lo);
    if view != [] {
      if lo == 0 {
        var i :| 0 <= i < |entries| && entries[i].1 == 0;
        var k := EntryPosition(entries, view, i);
      }
      var rest := if view[0].0 == 0 then view[1..] else view;
      GapFree(rest, 0);
    }
  }

  /** The later checks pass only when every number is within n consecutive numbers from the lowest. */
  lemma FromViewAcceptsOnlyRange(entries: seq<(string, nat)>, view: seq<(nat, string)>)
    requires IndexOrdered(view) && ViewOf(entries, view)
    requires FromView(view).Ok?
    ensures forall i :: 0 <= i < |entries| ==> Lowest(entries) <= entries[i].1 < Lowest(entries) + |entries|
  {
    var lo := Lowest(entries);
    ViewLength(entries, view);
    if view != [] {
      var rest := if view[0].0 == 0 then view[1..] else view;
      GapFree(rest, 0);
      assert forall k :: 0 <= k < |view| ==> view[k].0 == view[0].0 + k by {
        if view[0].0 == 0 {
          assert forall k :: 1 <= k < |view| ==> view[k] == rest[k - 1];
        }
      }
      assert view[0].0 == lo by {
        if view[0].0 == 0 {
          var i := ViewEntry(entries, view, 0);
        } else {
          forall i | 0 <= i < |entries| ensures entries[i].1 != 0 {
            var k := EntryPosition(entries, view, i);
          }
        }
      }
      forall i | 0 <= i < |entries| ensures lo <= entries[i].1 < lo + |entries| {
        var k := EntryPosition(entries, view, i);
      }
    }
  }

  /**
   * Reading succeeds exactly for a valid table: a repeated number, a
   * repeated name, a lowest number other than 0 or 1, or a gap is an error.
   */
  lemma ReadTableSucceeds(entries: seq<(string, nat)>)
    ensures ReadTable(entries).Ok? <==> ValidTable(entries)
  {
    CollectProperties(entries);
    if Collect(entries).Ok? {
      if ValidTable(entries) {
        FromViewAcceptsRange(entries, Collect(entries).value);
      }
      if FromView(Collect(entries).value).Ok? {
        FromViewAcceptsOnlyRange(entries, Collect(entries).value);
      }
    }
  }

  /**
   * A table read without error holds every entry: number 0 names the empty
   * symbol, and the symbol numbered k has alphabet id k - 1.
   */
  lemma ReadTableIds(entries: seq<(string, nat)>)
    requires ReadTable(entries).Ok?
    ensures var t := ReadTable(entries).value;
      && (t.emptySymbol.Some? <==> HasZero(entries))
      && |t.symbols| == |entries| - (if HasZero(entries) then 1 else 0)
      && (forall i :: 0 <= i < |entries| && entries[i].1 == 0 ==> t.emptySymbol == Some(entries[i].0))
      && (forall i :: 0 <= i < |entries| && entries[i].1 > 0 ==>
            entries[i].1 - 1 < |t.symbols| && t.symbols[entries[i].1 - 1] == entries[i].0)
  {
    ReadTableSucceeds(entries);
    CollectProperties(entries);
    var view := Collect(entries).value;
    FromViewAcceptsRange(entries, view);
    ViewLength(entries, view);
    var t := ReadTable(entries).value;
    var lo := Lowest(entries);
    if view != [] {
      var rest := if lo == 0 then view[1..] else view;
      assert t.symbols == Names(rest);
      forall i | 0 <= i < |entries|
        ensures entries[i].1 == 0 ==> t.emptySymbol == Some(entries[i].0)
        ensures entries[i].1 > 0 ==> entries[i].1 - 1 < |t.symbols| && t.symbols[entries[i].1 - 1] == entries[i].0
      {
        var k := EntryPosition(entries, view, i);
        if lo == 0 && k > 0 {
          assert rest[k - 1] == view[k];
        }
      }
      if lo == 1 {
        forall i | 0 <= i < |entries| ensures entries[i].1 != 0 {
        }
      }
    }
  }

  /**
   * readSymbolTableFrom after parsing, as the source runs it: the duplicate
   * checks over the entries, then the lowest-number check, the gap check
   * and the additions to the alphabet, each a loop over the view in number
   * order.
   */
  method ReadSymbolTable(entries: seq<(string, nat)>) returns (r: Result<SymbolTable, SymbolError>)
    ensures r.Err? ==> ReadTable(entries) == Err(r.error)
    ensures r.Ok? ==>
      && ReadTable(entries).Ok?
      && fresh(r.value) && fresh(r.value.alphabet) && r.value.alphabet.Valid()
      && r.value.emptySymbol == ReadTable(entries).value.emptySymbol
      && r.value.alphabet.symbols == ReadTable(entries).value.symbols
  {
    var collected := CollectEntries(entries);
    if collected.Err? {
      return Err(collected.error);
    }
    var view := collected.value;
    CollectProperties(entries);

    var table := new SymbolTable();
    if view == [] {
      return Ok(table);
    }
    var lowestIndex := view[0].0;
    if lowestIndex != 0 && lowestIndex != 1 {
      return Err(LowestIndex(lowestIndex, view[0].1));
    }
    var rest := view;
    if view[0].0 == 0 {
      table.SetEmptySymbol(view[0].1);
      rest := view[1..];
    }
    var gap := CheckDense(rest);
    if gap.Some? {
      return Err(gap.value);
    }
    AddNames(table, rest);
    r := Ok(table);
  }

  /** The first loop of readSymbolTableFrom: the duplicate checks and insertions, entry by entry. */
  method CollectEntries(entries: seq<(string, nat)>) returns (r: Result<seq<(nat, string)>, SymbolError>)
    ensures r == Collect(entries)
  {
    var view: seq<(nat, string)> := [];
    for i := 0 to |entries|
      invariant Collect(entries[..i]) == Ok(view)
    {
      assert entries[..i + 1][..i] == entries[..i];
      var (name, index) := entries[i];
      var sameIndex := NameWithIndex(view, index);
      if sameIndex.Some? {
        CollectErrorStays(entries, i + 1);
        return Err(DuplicateIndex(index, sameIndex.value, name));
      }
      var sameName := IndexWithName(view, name);
      if sameName.Some? {
        CollectErrorStays(entries, i + 1);
        return Err(DuplicateName(name, sameName.value, index));
      }
      view := Insert(view, (index, name));
    }
    assert entries[..|entries|] == entries;
    r := Ok(view);
  }

  /** The gap check: each number must be one more than the one before, starting from 0. */
  method CheckDense(rest: seq<(nat, string)>) returns (gap: Option<SymbolError>)
    ensures gap == FirstGap(rest, 0)
  {
    var previousIndex := 0;
    for k := 0 to |rest|
      invariant FirstGap(rest, 0) == FirstGap(rest[k..], previousIndex)
    {
      assert rest[k..][1..] == rest[k + 1..];
      if previousIndex + 1 != rest[k].0 {
        return Some(NotDense(previousIndex, rest[k].0, rest[k].1));
      }
      previousIndex := rest[k].0;
    }
    gap := None;
  }

  /**
   * The last loop: each name, in number order, is added to the table's
   * alphabet, and its id is its number less one.
   */
  method AddNames(table: SymbolTable, rest: seq<(nat, string)>)
    requires table.alphabet.Valid() && table.alphabet.symbols == []
    requires FirstGap(rest, 0) == None && NamesDistinct(rest)
    modifies table.alphabet
    ensures table.alphabet.Valid() && table.alphabet.symbols == Names(rest)
  {
    GapFree(rest, 0);
    for k := 0 to |rest|
      invariant table.alphabet.Valid()
      invariant |table.alphabet.symbols| == k
      invariant forall j :: 0 <= j < k ==> table.alphabet.symbols[j] == rest[j].1
    {
      ghost var before := table.alphabet.symbols;
      var id := table.alphabet.AddSymbol(rest[k].1);
      assert id == rest[k].0 - 1 by {
        assert rest[k].1 !in before;
      }
    }
  }

  /** Once an entry is rejected, reading more entries reports the same error. */
  lemma {:induction false} CollectErrorStays(entries: seq<(string, nat)>, i: nat)
    requires i <= |entries| && Collect(entries[..i]).Err?
    ensures Collect(entries).Err? && Collect(entries).error == Collect(entries[..i]).error
    decreases |entries| - i
  {
    if i < |entries| {
      assert entries[..i + 1][..i] == entries[..i];
      CollectErrorStays(entries, i + 1);
    } else {
      assert entries[..i] == entries;
    }
  }
}
