# Flipsta core in Dafny

A model of the core of Flipsta, a C++ library of weighted finite-state
automata with a small Python binding, together with proofs of what the
library promises about it. One Dafny module covers each source file or
tight group of files:

- **Core**: directions and their opposites, explicit arcs, and the product
  `times(direction, l, r)` that swaps its operands backward. It also holds
  the default terminalLabel and arcsOn that expand compressed labels
  (`include/flipsta/core.hpp`, `include/flipsta/arc.hpp`).
- **ExplicitAutomaton**: the automaton store of `include/flipsta/automaton.hpp`
  as a class. States are kept in insertion order. Arcs are returned most
  recent first. Terminal lists are replaced in place and erased by zero.
- **DenseIndex, Maps, Queue**: the dense key, the map with a default value
  (and its vector-backed form for dense keys), and the LIFO stack.
- **Traverse, TopologicalOrder, ShortestDistance**: the resumable depth-first
  traversal, as a step function and a class that runs it in place. Then the
  topological order built from its finishing events, and the acyclic
  shortest-distance range. That range is proved against a reference
  definition of the distances.
- **Label, TransformLabels**: alphabets and the compress/expand tags, and the
  transformed-label view of an automaton.
- **Tropical, SharedAutomaton, SharedAutomatonAtt, AutomatonSemiring, Sole,
  StateMemo**: the jointly minimised acyclic automata and their union,
  concatenation, enumeration and AT&T output. Also the semiring they form,
  the interning store and the union memo. Weights are integer tropical
  weights.
- **Markers**: the Zero/One table of the Python binding's semiring.
- **AttSymbolTable, AttAutomaton**: the AT&T symbol-table checks and the
  automaton loader, starting from already parsed entries and lines.
- **Draw**: the Graphviz dot exporter.

Dafny integers are unbounded. The only arithmetic in the model is on
weights and ids, and none of it wraps.

## Model

| member | source | states |
|---|---|---|
| Core.Opposite | include/flipsta/core.hpp:102-107 | the opposite direction differs from the given one: Forward gives Backward and Backward gives Forward |
| Core.MathDirectionOf | include/flipsta/core.hpp:113-117 | Forward corresponds to a left semiring direction and Backward to a right one |
| Core.TimesBackwardSwaps | include/flipsta/core.hpp:538-548 | the product in the backward direction is the forward product with its operands swapped |
| Core.TimesOnSequences | test/flipsta/test-core.cpp:97-105 | with concatenation as the product, a and b give "ab" forward and "ba" backward, and the empty sequence is neutral |
| Core.Arc.State | include/flipsta/arc.hpp:92-97 | state(Backward) is the source and state(Forward) the destination |
| Core.MakeArc | include/flipsta/arc.hpp:61-80 | the Forward constructor takes (source, destination) and the Backward one (destination, source); the label is stored |
| Core.CopyArc | include/flipsta/arc.hpp:85-87 | copying an arc keeps both endpoints and the label |
| Core.TransformedArc | include/flipsta/core.hpp:842-864 | a transformed arc has the same endpoints in both directions and the converted label |
| Core.TransformArcs | include/flipsta/core.hpp:870-888 | converting a range of arcs keeps their number and order and converts each arc |
| Core.TransformLabelsForStates | include/flipsta/core.hpp:793-837 | converting (state, label) pairs keeps their number, order and states and converts each label |
| Core.AutomaticArcsOn | include/flipsta/core.hpp:1196-1222 | the automatic arcsOn gives the compressed arcs in order, endpoints unchanged, labels expanded |
| Core.TryAll | include/flipsta/core.hpp:896-911 | the dispatch picks an implementation exactly when one exists, and then the first one that exists |
| Core.MemberPreferred | include/flipsta/core.hpp:1176-1181 | a member implementation is used in preference to the automatic one, which is used when there is no member |
| ExplicitAutomaton.ArcsOnMembers | include/flipsta/automaton.hpp:334-342 | the arcs on a state are exactly the stored arcs whose source (forward) or destination (backward) is that state, and no more than there are arcs |
| ExplicitAutomaton.ArcsOnAfterAdding | include/flipsta/automaton.hpp:251-253 | a newly inserted arc comes first among the arcs on its state, and the arcs on every other state are unchanged |
| ExplicitAutomaton.SetInProperties | include/flipsta/automaton.hpp:184-200 | setting a label gives the state that label, keeps every other state's label, and keeps the order: a state already present stays in place, a new one goes at the end |
| ExplicitAutomaton.UnsetInProperties | include/flipsta/automaton.hpp:202-207 | erasing a state removes exactly that state, which then reads as zero, and keeps the other states' labels and order |
| ExplicitAutomaton.LabelInSpec | include/flipsta/automaton.hpp:322-332 | looking up a state gives its label when it is in the list and zero otherwise |
| ExplicitAutomaton.UpdateKeepsListValid | include/flipsta/automaton.hpp:283-286 | setting a label (erasing it for zero) keeps a terminal list free of duplicates, of unknown states and of zero labels |
| ExplicitAutomaton.AutomatonValue.TerminalLabel | include/flipsta/core.hpp:697-714 | the terminal label is zero for a state that is not terminal in that direction or does not exist, and the stored label otherwise |
| ExplicitAutomaton.AutomatonValue.ArcsOnState | include/flipsta/core.hpp:728-740 | the arcs on a state in direction d are stored arcs starting (forward) or ending (backward) at it, and every such arc is among them |
| ExplicitAutomaton.Automaton.constructor | include/flipsta/automaton.hpp:214-221 | a new automaton has no states, no arcs and no terminal states |
| ExplicitAutomaton.Automaton.HasState | include/flipsta/automaton.hpp:296-299 | hasState holds exactly for the states added |
| ExplicitAutomaton.Automaton.AddState | include/flipsta/automaton.hpp:229-233 | addState fails with StateExists and changes nothing if the state exists; otherwise it appends the state; arcs and terminal lists are untouched |
| ExplicitAutomaton.Automaton.AddArc | include/flipsta/automaton.hpp:244-254 | addArc fails with StateNotFound for a missing source, then for a missing destination; otherwise the arc is first among the arcs out of its source and into its destination |
| ExplicitAutomaton.Automaton.SetTerminalLabel | include/flipsta/automaton.hpp:272-287 | setTerminalLabel fails with StateNotFound for a missing state; a zero label erases the state from that direction's list, any other label replaces it in place or appends it; other states and the other direction are unchanged |
| ExplicitAutomaton.Automaton.TerminalStatesCompressed | include/flipsta/automaton.hpp:301-305 | the terminal states are states of the automaton with non-zero labels |
| ExplicitAutomaton.Automaton.TerminalLabelCompressed | include/flipsta/automaton.hpp:322-332 | the compressed terminal label is non-zero exactly for the terminal states in that direction, and zero for a state that does not exist |
| ExplicitAutomaton.Automaton.ArcsOnCompressed | include/flipsta/automaton.hpp:334-342 | arcsOnCompressed gives exactly the arcs out of (forward) or into (backward) the state |
| DenseIndex.MakeDense | include/flipsta/core/dense.hpp:46-47 | construction takes a non-negative integer and wraps exactly that value |
| DenseIndex.EqualIffValuesEqual | include/flipsta/core/dense.hpp:53-57 | two wrapped values are equal exactly when their integers are |
| DenseIndex.ComparisonsAgree | include/flipsta/core/dense.hpp:59-67 | <, <=, > and >= are the strict and non-strict sides of one total order, the order of the integers |
| DenseIndex.Hash | include/flipsta/core/dense.hpp:72-75 | the hash of a wrapped value is the hash of the integer it wraps |
| Maps.FromPairsLastWins | include/flipsta/map.hpp:156-193 | after setting the initial pairs in order, a key is present exactly when some pair has it, and its value is that of the last such pair |
| Maps.Map.constructor | include/flipsta/map.hpp:139-154 | a new map is empty, with the default given; a map that always contains every key must have a default |
| Maps.Map.FromValues | include/flipsta/map.hpp:164-193 | construction from initial values holds what setting them one after the other gives |
| Maps.Map.Contains | include/flipsta/map.hpp:201-215 | contains is true for every key when alwaysContain is set, and key membership otherwise |
| Maps.Map.Get | include/flipsta/map.hpp:235-256 | operator[] gives the value set for the key, or the default for an absent key, which needs a default |
| Maps.Map.Set | include/flipsta/map.hpp:224-229 | set inserts the key or overwrites its value, and no other key changes |
| Maps.Map.Remove | include/flipsta/map.hpp:258-264 | remove makes the key absent, so that it reads as the default, and no other key changes |
| Maps.DenseMap.constructor | include/flipsta/map.hpp:277 | a new dense map is empty, with the default given |
| Maps.DenseMap.FromValues | include/flipsta/map.hpp:279-285 | construction from initial values reads every key as the last value given for it, or the default |
| Maps.DenseMap.Contains | include/flipsta/map.hpp:287-288 | the dense map contains every key |
| Maps.DenseMap.Get | include/flipsta/map.hpp:298-304 | a read in range gives the stored value and a read out of range the default |
| Maps.DenseMap.Set | include/flipsta/map.hpp:290-296 | set grows the vector with the default to reach the key, stores the value, and every other key reads as before |
| Maps.DenseMap.Remove | include/flipsta/map.hpp:306-311 | remove resets the key to the default, is a no-op out of range, and every other key reads as before |
| Queue.LifoQueue.constructor | include/flipsta/queue.hpp:31-32 | a new queue is empty |
| Queue.LifoQueue.Empty | include/flipsta/queue.hpp:35 | empty holds exactly when no element is left |
| Queue.LifoQueue.Push | include/flipsta/queue.hpp:40 | push puts the element on top: the queue is non-empty and its head is the element |
| Queue.LifoQueue.Head | include/flipsta/queue.hpp:42-49 | head is the element the next pop returns, the last pushed one not yet popped |
| Queue.LifoQueue.SetHead | include/flipsta/queue.hpp:51-58 | assigning through head() changes only the top element |
| Queue.LifoQueue.Pop | include/flipsta/queue.hpp:60-72 | pop returns the head and removes it and nothing else |
| Queue.PushPopRestores | test/flipsta/test-queue.cpp:29-42 | pushing, changing the head in place and popping returns the changed value and restores the queue |
| Traverse.SkipVisited | include/flipsta/traverse.hpp:315-327 | the roots left are a suffix of the old roots that starts with an unvisited state or is empty; every root dropped had been seen |
| Traverse.SkipVisitedRoots | include/flipsta/traverse.hpp:320-326 | the loop that drops the seen roots returns exactly SkipVisited of the roots |
| Traverse.StartInv | include/flipsta/traverse.hpp:243-253 | the fresh traversal (all states as roots, nothing visited, empty stack) satisfies the traversal invariant, including the asserted one that roots start with an unvisited state |
| Traverse.ChopEvents | include/flipsta/traverse.hpp:54-70 | each step changes the status of the reported state only: a new root is unvisited, visit turns unvisited into visiting, finishVisit turns visiting into visited, a back state is being visited, a forward-or-cross state has been visited |
| Traverse.ChopStep | include/flipsta/traverse.hpp:285-353 | one step keeps the invariant (stack a path of distinct states being visited, visited states exactly those finished, each once) and lowers the termination measure |
| Traverse.ChopOrdered | include/flipsta/traverse.hpp:285-353 | a step that reports no back state keeps every finished state's arcs leading to states finished before it |
| Traverse.ChopBackState | include/flipsta/traverse.hpp:332-344 | a step reports a back state only when a cycle passes through that state |
| Traverse.BackStateCycle | include/flipsta/traverse.hpp:65-68 | a back state lies on a cycle: the stack from it to the top plus the arc back |
| Traverse.TraversalComplete | include/flipsta/traverse.hpp:58-61 | when the range is empty every state of the automaton has finished its visit exactly once |
| Traverse.DepthFirstTraversal.constructor | include/flipsta/traverse.hpp:249-253 | the range starts with all states as roots, an empty status map and an empty stack |
| Traverse.DepthFirstTraversal.Empty | include/flipsta/traverse.hpp:273-274 | empty exactly when both the stack and the roots are empty |
| Traverse.DepthFirstTraversal.ChopInPlace | include/flipsta/traverse.hpp:285-353 | the in-place step returns the report and leaves the state that the step function Chop computes |
| TopologicalOrder.ReversedFinishOrder | include/flipsta/traverse.hpp:62-64 | the finishing order of a completed traversal without back states, reversed, holds every state once and puts the source of every arc before its destination |
| TopologicalOrder.OrderForbidsCycle | include/flipsta/topological_order.hpp:93-94 | an automaton with a topological order has no cycle |
| TopologicalOrder.TopologicalOrderAutomatic | include/flipsta/topological_order.hpp:136-157 | returns the depth-first traversal's finishVisit states in reverse, which is a topological order, or AutomatonNotAcyclic carrying the back state the traversal reported, which lies on a cycle; success implies the automaton is acyclic |
| TopologicalOrder.StoppedRunsAgree | include/flipsta/topological_order.hpp:142-155 | the traversal stops in one way only: any two runs that have stopped are the same run, so the order or the back state returned is determined by the automaton and the direction |
| TopologicalOrder.TraversalOutcomeUnique | include/flipsta/topological_order.hpp:142-155 | there is at most one traversal order (reversed finishVisit states) and at most one reported back state, and never both |
| TopologicalOrder.TopologicalOrderAcyclic | include/flipsta/topological_order.hpp:93-94 | an automaton that has a topological order has no cycle |
| TopologicalOrder.RunInv | include/flipsta/topological_order.hpp:145-152 | while the loop over the traversal's reports has met no back state, the traversal and order invariants hold; once it stops at a back state, that state lies on a cycle |
| TopologicalOrder.BackStateCycleAt | include/flipsta/topological_order.hpp:148-151 | the back state at which the loop throws lies on a cycle, which is returned |
| TopologicalOrder.RunMeasure | include/flipsta/topological_order.hpp:145 | each report before the traversal ends lowers its termination measure |
| TopologicalOrder.RunComplete | include/flipsta/topological_order.hpp:144-155 | a loop that ends without a back state has pushed every state to the front in an order that is topological, and the automaton has no cycle |
| TopologicalOrder.TopologicalOrderOf | include/flipsta/topological_order.hpp:159-164 | the automaton's own topologicalOrder is used when it has one; otherwise the automatic one, with its reversed finishVisit order or its reported back state |
| ShortestDistance.RelaxedSums | include/flipsta/shortest_distance.hpp:391-397 | after relaxing the arcs of a state, each state's distance is its old distance plus the products for the arcs into it, in arc order |
| ShortestDistance.RelaxArcs | include/flipsta/shortest_distance.hpp:391-397 | the relaxing loop computes the map that Relaxed specifies |
| ShortestDistance.IncomingArcsComeFirst | include/flipsta/shortest_distance.hpp:294-297 | in a topological order every arc into a state comes from an earlier state, so no contribution is missed |
| ShortestDistance.UnreachableIsZero | include/flipsta/shortest_distance.hpp:374-376 | states no initial label or earlier arc reaches get distance zero |
| ShortestDistance.ShortestDistanceAcyclicRange.constructor | include/flipsta/shortest_distance.hpp:370-376 | the range holds the topological order and the initial distances |
| ShortestDistance.ShortestDistanceAcyclicRange.Empty | include/flipsta/shortest_distance.hpp:378-379 | empty exactly when the order is used up |
| ShortestDistance.ShortestDistanceAcyclicRange.ChopInPlace | include/flipsta/shortest_distance.hpp:384-399 | emits the next state of the order with its reference (pulled) distance, forgets it, and relaxes its arcs |
| ShortestDistance.ChopKeepsDistances | include/flipsta/shortest_distance.hpp:384-399 | the pushed distances of the states not yet emitted equal the reference distances restricted to what has been emitted |
| ShortestDistance.CheckedInitialDistances | include/flipsta/shortest_distance.hpp:342-356 | succeeds exactly when every initial state is in the automaton, with the last distance per state; otherwise StateNotFound names the first missing state |
| ShortestDistance.NewShortestDistanceAcyclicRange | include/flipsta/shortest_distance.hpp:370-376 | a cycle is reported first, whatever the initial states; then the first missing initial state in input order; on an acyclic automaton with known initial states the range is built, and its order is topologicalOrder's: the traversal's finishVisit states in reverse |
| ShortestDistance.ShortestDistanceAcyclicCompressed | include/flipsta/shortest_distance.hpp:92-112 | every state once, in topologicalOrder's order (the traversal's finishVisit states in reverse), with its shortest distance from the initial labels; a cycle is reported before the first missing initial state |
| ShortestDistance.Drain | include/flipsta/shortest_distance.hpp:241-242 | reading the whole range yields one pair per state, in the range's order, with its reference distance |
| ShortestDistance.ResultIsShortestDistances | include/flipsta/shortest_distance.hpp:289-298 | the pairs emitted by a whole run are the shortest distances |
| ShortestDistance.ShortestDistanceAcyclicFromCompressed | include/flipsta/shortest_distance.hpp:114-133 | the single source starts at one; the states come in topologicalOrder's order; fails only on a missing source or a cycle, and always on a cycle |
| ShortestDistance.ShortestDistanceAcyclic | include/flipsta/shortest_distance.hpp:136-165 | compresses the initial labels, computes compressed distances in topologicalOrder's order and expands each of them; a cycle is reported before the first missing initial state |
| ShortestDistance.CanBeImplemented | include/flipsta/shortest_distance.hpp:59-64 | forward needs a right semiring, backward a left semiring |
| TransformLabels.TransformLabels | include/flipsta/transform_labels.hpp:87-94 | the view has the underlying states, and in each direction the same terminal states |
| TransformLabels.ArcsOnMatchGraph | include/flipsta/transform_labels.hpp:245-249 | the view's arcsOnCompressed are the arcs on the state of the graph whose arcs carry f of the underlying labels |
| TransformLabels.ArcsOnCommutes | include/flipsta/core.hpp:870-888 | selecting the arcs on a state and converting their labels can be done in either order |
| TransformLabels.EdgesAgree | include/flipsta/transform_labels.hpp:245-249 | converting labels leaves every edge of the graph in place, in both directions |
| TransformLabels.TopologicalOrderCarriesOver | include/flipsta/transform_labels.hpp:225-229 | an order is topological for the view exactly when it is for the underlying automaton, which justifies forwarding topologicalOrder |
| TransformLabels.CyclesAgree | include/flipsta/transform_labels.hpp:225-229 | the view and the underlying automaton have the same cycles |
| TransformLabels.TopologicalOrderOfView | include/flipsta/transform_labels.hpp:225-229 | the view's topological order is the underlying automaton's: its member when it has one, otherwise the underlying traversal's reversed finishVisit states or its reported back state; either way a topological order of the view or a state on a cycle of the view |
| TransformLabels.TerminalStatesConverted | include/flipsta/transform_labels.hpp:234-237 | the view's terminal states are the underlying ones in the same order, each label converted |
| TransformLabels.TerminalLabelConverted | include/flipsta/transform_labels.hpp:239-243 | a state that is not terminal (or absent) gets the converted zero; a terminal state gets its converted label |
| TransformLabels.ExpandedLabelsTransformed | include/flipsta/transform_labels.hpp:108-170 | with ExpandAndCompress, the expanded labels of the view are f of the expanded underlying labels, on arcs with unchanged endpoints and on terminal states |
| Label.Alphabet.constructor | include/flipsta/label.hpp:348 | a new alphabet is empty |
| Label.Alphabet.AddSymbol | include/flipsta/label.hpp:275-282 | returns the symbol's id, appending the symbol only when it is new; the alphabet stays duplicate-free |
| Label.Alphabet.GetSymbol | include/flipsta/label.hpp:284-294 | the symbol at an id |
| Label.InternedProperties | include/flipsta/label.hpp:303-311 | adding a sequence of symbols keeps the old alphabet as a prefix, contains every added symbol, adds nothing else, and stays duplicate-free |
| Label.IdsOf | include/flipsta/label.hpp:310 | one id per symbol, each the position of that symbol in the alphabet |
| Label.SymbolsAt | include/flipsta/label.hpp:289-293 | one symbol per id, the one at that position |
| Label.SymbolsRoundTrip | include/flipsta/label.hpp:303-311 | expanding the ids of a sequence of alphabet symbols gives the sequence back |
| Label.IdsOfGrown | include/flipsta/label.hpp:275-282 | ids stay valid when the alphabet grows at its end |
| Label.SequenceRoundTrip | include/flipsta/label.hpp:303-337 | for every kind of sequence label, expanding the compressed label gives the label back; annihilator and empty sequence map to themselves |
| Label.AddSymbols | include/flipsta/label.hpp:310 | adding a sequence of symbols interns them in first-seen order and returns their ids |
| Label.CompressSequence | include/flipsta/label.hpp:303-337 | ConvertSequence for compression: grows the alphabet by the new symbols and returns the label of ids |
| Label.Compress | include/flipsta/label.hpp:249-426 | with a matching tag, any label is compressed, alphabets only grow, and expanding the result with the grown alphabets gives the label back |
| Label.CompressComponents | include/flipsta/label.hpp:386-404 | composite labels are compressed component by component with the tag of that component |
| Label.CompressComponent | include/flipsta/label.hpp:386-404 | one component compressed with its own tag expands back to itself, and earlier components stay expandable |
| Label.ExpandedGrown | include/flipsta/label.hpp:275-282 | a compressed label stays expandable, to the same label, when alphabets grow |
| Label.DefaultTagMatches | include/flipsta/label.hpp:159-200 | a tag of the default type for a label's type can compress that label |
| Label.FreshAlphabetExample | test/flipsta/test-label.cpp:205-207 | a fresh alphabet numbers a, b, c as 0, 1, 2 |
| Label.FilledAlphabetKept | test/flipsta/test-label.cpp:213-222 | with q, b, 1, c, a already present, adding a, b, c leaves the alphabet as it was |
| Label.FilledAlphabetIds | test/flipsta/test-label.cpp:213-222 | with q, b, 1, c, a already present, a, b, c get the existing ids 4, 1, 3 |
| Tropical.Plus | test/flipsta-python/cost.py:40-46 | the lesser of the two weights; zero (infinite cost) only when both are |
| Tropical.Times | test/flipsta-python/cost.py:51-57 | costs add; zero when either is zero |
| Tropical.LeftDivide | include/flipsta/shared_automaton.hpp:345-361 | the weight r with b times r equal to a; zero only for zero |
| Tropical.PlusCommutes | test/flipsta-python/cost.py:40-46 | plus is commutative |
| Tropical.PlusAssociates | test/flipsta-python/cost.py:40-46 | plus is associative |
| Tropical.TimesAssociates | test/flipsta-python/cost.py:51-57 | times is associative |
| Tropical.TimesCommutes | test/flipsta-python/cost.py:59-62 | times is commutative |
| Tropical.Identities | test/flipsta-python/cost.py:29-57 | zero is the identity of plus and annihilates times; one is the identity of times |
| Tropical.Distributes | test/flipsta-python/cost.py:40-57 | times distributes over plus on both sides |
| Tropical.DivideDistributes | include/flipsta/shared_automaton.hpp:345-361 | dividing a sum is summing the quotients |
| Tropical.DivideCancels | include/flipsta/shared_automaton.hpp:345-361 | multiplying back by the divisor gives the dividend; a weight divided by itself is one |
| Markers.Underlying | source/flipsta-python/semiring.hpp:95-101 | a Semiring stands for its wrapped object, a marker for its singleton |
| Markers.ComparisonsCompareObjects | source/flipsta-python/semiring.hpp:106-143 | every == compares the objects the operands stand for, and != is its negation |
| Markers.TablesAreBoolean | source/flipsta-python/semiring.hpp:145-171 | plus is "or" wherever defined and undefined exactly for One + One; times is "and" |
| Markers.TimesIdentity | source/flipsta-python/semiring.hpp:208-212 | One is the identity of times on the markers |
| Markers.PlusIdentity | source/flipsta-python/semiring.hpp:214-218 | Zero is the identity of plus on the markers |
| Markers.TimesAnnihilator | source/flipsta-python/semiring.hpp:220-225 | Zero annihilates times on the markers |
| Markers.MarkersCommute | source/flipsta-python/semiring.hpp:145-171 | plus, missing entry included, and times do not depend on operand order |
| SharedAutomaton.StartWeight | include/flipsta/shared_automaton.hpp:266-269 | the null automaton's start weight is zero |
| SharedAutomaton.MakeShared | include/flipsta/shared_automaton.hpp:254-264 | the automaton is null exactly when the start weight is zero, and keeps the start weight given |
| SharedAutomaton.PremultiplyMeaning | include/flipsta/shared_automaton.hpp:276-277 | premultiply multiplies the weight of every key sequence by w from the left, keeping the automaton well formed |
| SharedAutomaton.PredivideMeaning | include/flipsta/shared_automaton.hpp:284-285 | predivide divides the weight of every key sequence by w, so that w times the result is the old weight |
| SharedAutomaton.NormaliseArcsProperties | include/flipsta/shared_automaton.hpp:333-361 | normaliseArcs returns the sum of the start and arc weights, and the start weight and arcs divided by it; the result is normalised, and unchanged when the sum is one |
| SharedAutomaton.NormaliseArcsLoop | include/flipsta/shared_automaton.hpp:345-361 | the summing loop and the dividing loop compute what NormaliseArcs specifies |
| SharedAutomaton.MakeAutomatonMeaning | include/flipsta/shared_automaton.hpp:363-372 | makeAutomaton gives every key sequence the weight the unnormalised state gives it and is well formed |
| SharedAutomaton.UnionProperties | include/flipsta/shared_automaton.hpp:640-663 | union_ gives every key sequence the sum of the two weights, is well formed, and is null only when both arguments are |
| SharedAutomaton.ComputeUnionProperties | include/flipsta/shared_automaton.hpp:409-502 | computeUnion gives every key sequence lp times the left state's weight plus rp times the right state's weight, well formed |
| SharedAutomaton.AddAutomatonProperties | include/flipsta/shared_automaton.hpp:374-407 | addAutomaton gives every key sequence the weight of its own arcs and final weight plus rp times the right state's weight |
| SharedAutomaton.MergeProperties | include/flipsta/shared_automaton.hpp:448-495 | the merged arcs are in key order, have the keys of both sides, and on each key the union of both sides' automata |
| SharedAutomaton.MergeLoop | include/flipsta/shared_automaton.hpp:448-495 | the merge loop of computeUnion yields the key-ordered merge of both arc lists, each weighted by its side's pre-weight |
| SharedAutomaton.CopyScaled | include/flipsta/shared_automaton.hpp:486-495 | the tail loops append the remaining arcs of one side, weighted |
| SharedAutomaton.ScaledAt | include/flipsta/shared_automaton.hpp:486-495 | each arc copied into the union keeps its key and gets its side's pre-weight times its own start weight, with the same state |
| SharedAutomaton.AddArcsLoop | include/flipsta/shared_automaton.hpp:388-402 | the loop of addAutomaton finds or inserts each weighted right arc, giving the merge of both lists |
| SharedAutomaton.ConcatenateWeight | include/flipsta/shared_automaton.hpp:504-572 | concatenate gives every key sequence the sum, over its splits, of the left weight of the prefix times the right weight of the suffix |
| SharedAutomaton.ConcatenateWellFormed | include/flipsta/shared_automaton.hpp:521-572 | the concatenation of well-formed automata is well formed |
| SharedAutomaton.StartWeightIsLeast | include/flipsta/shared_automaton.hpp:112-117 | with normalised tropical states, the start weight is the least weight of any key sequence, and some key sequence has it |
| SharedAutomaton.Canonical | include/flipsta/shared_automaton.hpp:194-217 | two well-formed automata that give every key sequence the same weight are equal, which is what hash-consing relies on |
| SharedAutomaton.EnumerateReportsWeights | include/flipsta/shared_automaton.hpp:719-737 | enumerate reports (ks, w) exactly when w is the automaton's non-zero weight for ks |
| SharedAutomaton.EnumerateMeaning | include/flipsta/shared_automaton.hpp:719-737 | every reported pair extends the prefix and carries the previous weight times the automaton's weight, and every non-zero weight is reported |
| SharedAutomatonAtt.WriteAttAutomaton | include/flipsta/shared_automaton.hpp:665-717 | the start state is numbered 0 and every reachable state once; each popped state writes its final line, then its arcs in key order; the text is in discovery order, every line mentioning only numbers already given except an arc line that introduces the next number as its destination, and the numbers given are exactly those the text mentions |
| SharedAutomatonAtt.FirstMention | include/flipsta/shared_automaton.hpp:699-710 | in a text in discovery order, every number k other than 0 first appears as the destination of an arc line from a smaller number, and every line before it mentions only numbers below k |
| SharedAutomatonAtt.High | include/flipsta/shared_automaton.hpp:676-704 | the bound on the numbers a text mentions is tight: every number is below it, and it is one more than the largest one, or 1 (the start state's 0 is given before any line) |
| SharedAutomatonAtt.FreshStates | include/flipsta/shared_automaton.hpp:691-707 | the states an arc loop numbers and pushes are exactly the arc destinations that have no number yet |
| SharedAutomatonAtt.WriteState | include/flipsta/shared_automaton.hpp:679-715 | one pass of the loop writes the popped state's lines; the discovery order and the stack both grow by the destinations of its arcs that had no number, in key order, each once; the text stays in discovery order |
| SharedAutomatonAtt.WriteArc | include/flipsta/shared_automaton.hpp:691-713 | one arc writes its line with the destination's number, which is the known one or, for a new destination, the next number, given as the destination is pushed |
| SharedAutomatonAtt.KnownArc | include/flipsta/shared_automaton.hpp:696-713 | a destination that has a number keeps it; only the arc line is added, and the order and the stack are unchanged |
| SharedAutomatonAtt.FreshArc | include/flipsta/shared_automaton.hpp:701-713 | a destination without a number gets lastStateIndex + 1, is pushed, and the arc line carries that number |
| SharedAutomatonAtt.Discover | include/flipsta/shared_automaton.hpp:702-707 | a destination not seen before gets the next number and is pushed on top of the stack |
| SharedAutomatonAtt.WrittenDescribes | include/flipsta/shared_automaton.hpp:665-717 | the text has a final line for each final state and an arc line, with the destination's number, for each arc, and no other line |
| SharedAutomatonAtt.ReachableLeast | include/flipsta/shared_automaton.hpp:665-717 | the reachable states are the least set closed under arcs holding the start state |
| AutomatonSemiring.SemiringZero | include/flipsta/automaton_semiring.hpp:77-81 | the default constructor gives the null automaton, which gives every sequence zero |
| AutomatonSemiring.FromWeight | include/flipsta/automaton_semiring.hpp:83-87 | the final state with weight w gives the empty sequence w and every other sequence zero |
| AutomatonSemiring.FromSymbol | include/flipsta/automaton_semiring.hpp:60-68 | the automaton on one symbol gives [key] the weight and every other sequence zero |
| AutomatonSemiring.EqualMeansSameWeights | include/flipsta/automaton_semiring.hpp:185-191 | equal holds exactly when both automata give every sequence the same weight |
| AutomatonSemiring.AnnihilatorMeansZero | include/flipsta/automaton_semiring.hpp:193-200 | is_annihilator holds exactly for zero, the automaton that gives every sequence zero |
| AutomatonSemiring.ProductMeaning | include/flipsta/automaton_semiring.hpp:225-236 | times is concatenation: well formed, with the split-sum weight |
| AutomatonSemiring.ProductAssociates | include/flipsta/automaton_semiring.hpp:225-227 | times is associative, as declared |
| AutomatonSemiring.SumCommutes | include/flipsta/automaton_semiring.hpp:239-241 | plus is commutative, as declared |
| AutomatonSemiring.SumAssociates | include/flipsta/automaton_semiring.hpp:239-241 | plus is associative, as declared |
| AutomatonSemiring.ZeroIsSumIdentity | include/flipsta/automaton_semiring.hpp:214-220 | the default-constructed zero is the identity of plus |
| AutomatonSemiring.ZeroAnnihilates | include/flipsta/automaton_semiring.hpp:193-200 | zero annihilates times on both sides |
| AutomatonSemiring.OneIsProductIdentity | include/flipsta/automaton_semiring.hpp:204-212 | the final state with weight one is the identity of times on both sides |
| AutomatonSemiring.ProductDistributesLeft | include/flipsta/automaton_semiring.hpp:253-256 | times distributes over plus from the left, as the left-semiring declaration says |
| AutomatonSemiring.ProductDistributesRight | include/flipsta/automaton_semiring.hpp:253-256 | with commuting tropical weights, times also distributes from the right |
| AutomatonSemiring.SymbolsConcatenate | test/flipsta/test-automaton_semiring.cpp:105-112 | the product of two one-symbol automata gives the two-symbol sequence the product weight and nothing else |
| AutomatonSemiring.WeightTimesSymbol | test/flipsta/test-automaton_semiring.cpp:77-84 | a weight times a symbol automaton is the symbol automaton with the product weight |
| Sole.GotProperties | include/flipsta/detail/sole.hpp:267-305 | get keeps the store free of equal values, returns the one object equal to the value, changes nothing when there is one, and otherwise adds the value at the new address only |
| Sole.GetEqualValueAgain | include/flipsta/detail/sole.hpp:274-278 | asking again for any equal value returns the same object and changes nothing |
| Sole.SetKeepsSole | include/flipsta/detail/sole.hpp:307-321 | set of a value not yet held keeps the store free of equal values |
| Sole.GetAfterSet | include/flipsta/detail/sole.hpp:307-321 | after set, get of an equal value returns the address that was set |
| Sole.SoleStore.constructor | include/flipsta/detail/sole.hpp:259 | a new store is empty |
| Sole.SoleStore.Get | include/flipsta/detail/sole.hpp:274-305 | the store method does what Got specifies |
| Sole.SoleStore.Set | include/flipsta/detail/sole.hpp:315-321 | the address given is added with its value |
| Sole.SoleStore.Remove | include/flipsta/detail/sole.hpp:326-328 | the object at the address given leaves the store |
| Sole.SoleStore.RemovePointer | include/flipsta/detail/sole.hpp:352-356 | exactly the one object at the address given is erased |
| StateMemo.MakeUnionArguments | include/flipsta/detail/shared_automaton_state_memo.hpp:70-93 | the argument at the lower address comes first with its own weight |
| StateMemo.ArgumentsOrderFree | include/flipsta/detail/shared_automaton_state_memo.hpp:78-92 | both orders of two arguments at different addresses give the same key |
| StateMemo.Forget | include/flipsta/detail/shared_automaton_state_memo.hpp:229-274 | exactly the entries with the given state address as neither argument survive, unchanged |
| StateMemo.CorrectForgets | include/flipsta/detail/shared_automaton_state_memo.hpp:223-228 | dropping the entries of a destroyed state keeps the remaining entries right |
| StateMemo.ComputeUnionCommutes | include/flipsta/detail/shared_automaton_state_memo.hpp:83-86 | computeUnion does not depend on the order of its arguments, so canonicalising them is sound |
| StateMemo.SharedAutomatonMemo.constructor | include/flipsta/detail/shared_automaton_state_memo.hpp:161-164 | a new memo has an empty cache and holds the singleton final state |
| StateMemo.SharedAutomatonMemo.Retrieve | include/flipsta/detail/shared_automaton_state_memo.hpp:175-190 | null when the arguments are not cached, otherwise the cached weight and state |
| StateMemo.SharedAutomatonMemo.Remember | include/flipsta/detail/shared_automaton_state_memo.hpp:192-221 | the entry is added, weakly when the result's state is one of the arguments; a right entry keeps the cache right and is retrieved next time |
| StateMemo.SharedAutomatonMemo.RemoveStatePointer | include/flipsta/detail/shared_automaton_state_memo.hpp:229-274 | every entry with the given state address as either argument is removed, and the cache stays right |
| StateMemo.SharedAutomatonMemo.ReleaseState | include/flipsta/detail/sole.hpp:334-356 | a destroyed state leaves the cache and then the store |
| StateMemo.SharedAutomatonMemo.Destroy | include/flipsta/detail/shared_automaton_state_memo.hpp:166-173 | with an empty cache, the singleton final state leaves the store |
| StateMemo.MemoisedUnionCached | include/flipsta/shared_automaton.hpp:574-638 | the cached union equals the union computed without the memo, and the memo stays right |
| AttSymbolTable.SymbolTable.constructor | include/flipsta/att/symbol_table.hpp:48 | a new symbol table has a fresh, empty alphabet and no empty symbol |
| AttSymbolTable.SymbolTable.EmptySymbol | include/flipsta/att/symbol_table.hpp:52-53 | the empty symbol can be asked for only when one is set, and is the one stored |
| AttSymbolTable.SymbolTable.SetEmptySymbol | include/flipsta/att/symbol_table.hpp:55-58 | the empty symbol may be set only once; afterwards the table has it, and the alphabet is untouched |
| AttSymbolTable.NameWithIndex | source/flipsta/att/symbol_table.cpp:113-114 | finds a name exactly when some collected mapping has that index, and the pair found is one of the mappings |
| AttSymbolTable.IndexWithName | source/flipsta/att/symbol_table.cpp:121-122 | finds an index exactly when some collected mapping has that name, and the pair found is one of the mappings |
| AttSymbolTable.Insert | source/flipsta/att/symbol_table.cpp:128 | inserting a mapping with a new index keeps the index-ordered view ordered, and adds exactly that mapping |
| AttSymbolTable.CollectProperties | source/flipsta/att/symbol_table.cpp:111-129 | collecting the mappings fails exactly when two entries share an index or a name; on success the view holds exactly the entries, with index and name swapped |
| AttSymbolTable.CollectErrorStays | source/flipsta/att/symbol_table.cpp:112-126 | the first duplicate found in a prefix of the entries is the error reported for all of them |
| AttSymbolTable.GapFree | source/flipsta/att/symbol_table.cpp:152-164 | the density check passes exactly when the indices after the previous one go up by one each |
| AttSymbolTable.FromViewAcceptsRange | source/flipsta/att/symbol_table.cpp:133-164 | if the indices are exactly the range starting at the lowest index, the view is accepted and each index is the lowest plus its position |
| AttSymbolTable.FromViewAcceptsOnlyRange | source/flipsta/att/symbol_table.cpp:133-164 | if the view is accepted, every index lies in the range of the entries' length starting at the lowest index |
| AttSymbolTable.ReadTableSucceeds | source/flipsta/att/symbol_table.cpp:80-174 | reading a symbol table succeeds exactly when names and indices are unique, the lowest index is 0 or 1, and the indices are dense |
| AttSymbolTable.ReadTableIds | source/flipsta/att/symbol_table.cpp:147-171 | in a table read, index 0 names the empty symbol, every index i above 0 names alphabet symbol i - 1, and the alphabet holds every other entry |
| AttSymbolTable.ReadSymbolTable | source/flipsta/att/symbol_table.cpp:80-174 | the method fails with the error ReadTable gives, or returns a fresh table whose empty symbol and alphabet are the ones ReadTable gives |
| AttSymbolTable.CollectEntries | source/flipsta/att/symbol_table.cpp:110-129 | the loop over the mappings computes the collected view or the first duplicate error |
| AttSymbolTable.CheckDense | source/flipsta/att/symbol_table.cpp:152-164 | the loop reports the first index that does not follow the previous one, or none |
| AttSymbolTable.AddNames | source/flipsta/att/symbol_table.cpp:166-171 | adding the names in index order gives an alphabet holding exactly those names in that order |
| AttAutomaton.EmptyLabel | include/flipsta/att/automaton.hpp:93-97 | a final label has empty input and output sequences and the weight given |
| AttAutomaton.WeightOr | source/flipsta/att/automaton.cpp:107-111 | a missing weight reads as one, a given weight as itself |
| AttAutomaton.GetSymbol | source/flipsta/att/automaton.cpp:92-98 | the table's empty symbol reads as the empty sequence, any other name as the one-symbol sequence |
| AttAutomaton.AddIfAbsent | source/flipsta/att/automaton.cpp:113-114 | adding a state that may be present gives exactly the old states plus that one |
| AttAutomaton.LoadValid | source/flipsta/att/automaton.cpp:169-186 | loading any sequence of lines keeps the automaton well formed and every symbol id inside its alphabet |
| AttAutomaton.LoadStates | source/flipsta/att/automaton.cpp:113-121 | the states of the automaton read are exactly the states some line mentions |
| AttAutomaton.StepStates | source/flipsta/att/automaton.cpp:113-121 | one line adds exactly the states it mentions |
| AttAutomaton.LoadStart | source/flipsta/att/automaton.cpp:115-119 | the source of the first transition line is the only start state, with label one; without transition lines there is none |
| AttAutomaton.LoadArcs | source/flipsta/att/automaton.cpp:123-126 | the arcs are exactly one per transition line, in order, with that line's states, symbols and weight, and the alphabets only grow |
| AttAutomaton.LoadFinal | source/flipsta/att/automaton.cpp:131-152 | the final label of a state is that of its last final-state line (weight one when missing), or zero when there is none |
| AttAutomaton.StepFinal | source/flipsta/att/automaton.cpp:147-149 | one final-state line sets that state's final label and leaves every other state's |
| AttAutomaton.LoadZero | include/flipsta/att/automaton.hpp:131-141 | the zero label of the automaton read has empty sequences and zero weight |
| AttAutomaton.ReadAutomaton | include/flipsta/att/automaton.hpp:131-146 | reading gives a fresh well-formed automaton equal to loading the lines; the alphabets grow as loading says; the descriptor holds both alphabets |
| AttAutomaton.AddArcLine | source/flipsta/att/automaton.cpp:100-128 | one transition line changes the automaton and the alphabets as the loading step says |
| AttAutomaton.AddArcStates | source/flipsta/att/automaton.cpp:113-121 | the states and the start state are updated as the loading step says |
| AttAutomaton.AddArcLabel | source/flipsta/att/automaton.cpp:123-126 | the arc is appended with the symbols looked up as the loading step says |
| AttAutomaton.AddFinalLine | source/flipsta/att/automaton.cpp:137-151 | one final-state line adds the state if absent and sets its final label as the loading step says |
| AttAutomaton.ReadLine | source/flipsta/att/automaton.cpp:168-175 | a line is read as a transition line, with the AddArc action, or else as a final-state line, with the AddFinalState action, as the loading step says |
| Draw.EscapedRoundTrip | include/flipsta/draw.hpp:34-46 | escaping quotes can be undone exactly, and leaves no quote without a backslash before it |
| Draw.MakePrintable | include/flipsta/draw.hpp:34-46 | the loop produces the escaped text |
| Draw.PrintablePair | include/flipsta/draw.hpp:48-53 | a printed pair contains no unescaped quote |
| Draw.OutsideLabelShowsBoth | include/flipsta/draw.hpp:112-127 | the corrected outside label shows the start label when it is neither zero nor one, and the final label likewise, joined by " / " |
| Draw.OutsideLabelAsWrittenRepeatsStart | include/flipsta/draw.hpp:119-127 | as written, whenever the final label is shown the text appended is the start label's |
| Draw.OutsideLabelCounterexample | include/flipsta/draw.hpp:125 | a state whose final label is "5" and that is not a start state is drawn with the start label (zero) instead of "5" |
| Draw.NodeAttributesShow | include/flipsta/draw.hpp:107-133 | with the corrected outside label of the draw.hpp:125 finding: the node attributes are bold exactly for start states and have a double periphery for final states; they carry the text of every start or final label other than zero and one; a state that is neither start nor final gets no attributes |
| Draw.BoldForStart | include/flipsta/draw.hpp:112-113 | the attributes start with the bold style exactly when the start label is not zero |
| Draw.DrawingShowsEverything | include/flipsta/draw.hpp:89-143 | with the corrected outside label of the draw.hpp:125 finding: the drawing starts with the digraph header, followed by the left-to-right layout line when horizontal, and ends with the closing brace; it contains a node line for every state, with its attributes, and an edge line for every arc |
| Draw.Draw | include/flipsta/draw.hpp:81-144 | the method writes exactly the drawing, whose node attributes use the corrected outside label of the draw.hpp:125 finding |
| Draw.DrawStates | include/flipsta/draw.hpp:101-141 | the loop over the states writes exactly their joined lines (node attributes with the corrected outside label) |
| Draw.DrawState | include/flipsta/draw.hpp:102-140 | the lines written for one state are its node line, with the corrected outside label, followed by its arcs' lines |
| Draw.DrawAttributes | include/flipsta/draw.hpp:104-130 | the attributes computed are the corrected NodeAttributes: bold, double periphery and the outside label with the final label shown |
| Draw.DrawArcs | include/flipsta/draw.hpp:135-140 | the loop over the arcs writes exactly their edge lines |

## Left out

- Parsing of text files (the parse_ll grammars, the line alternatives and the leftover-input errors at source/flipsta/att/automaton.cpp:169-193 and source/flipsta/att/symbol_table.cpp:88-102) is not modelled. The loaders start from parsed entries and lines.
- File and stream output is modelled as string building. Streaming a state or a label is a function to its text, passed in. The print functions of shared automata and automaton semirings, which only stream, are not modelled.
- Floating point is not modelled: double weights in the AT&T reader, `approximately_equal` in the normalisation check, and the test semirings. Weights of shared automata are integer tropical weights (min, +, infinity as zero, subtraction as left division).
- Shared automata are modelled on values, not on state pointers. The interning store hands out one pointer per value, so pointer equality is value equality. Sole and StateMemo model the store and the cache over abstract pointer ids.
- SharedAutomaton.PremultiplyMeaning: premultiply and predivide change the start weight in place; the model gives the new automaton as a value.
- SharedAutomaton.UnionProperties: union_ is modelled as computing the union afresh. Looking the union up in the memo is modelled separately, by StateMemo.MemoisedUnionCached, which proves that the cached result is the union.
- Ownership and lifetimes (shared_ptr and weak_ptr, destructors that remove a state from the store, and SoleBase's back pointer to its store) are not modelled. Removal is an explicit operation. The memo's weak entries are a flag. Of the emptiness assertions on destruction, the memo's is modelled (StateMemo.SharedAutomatonMemo.Destroy requires an empty memo); the store's is not.
- Hashing is not modelled beyond DenseIndex.Hash (Boost.MultiIndex, boost::hash, `hash_value`). The orders the code shows are specified directly.
- Compile-time dispatch (SFINAE, `Has`, `TryAll` over callables) is modelled by its run-time meaning only.
- Lazy ranges and move semantics are not modelled. Ranges are sequences or step methods.
- ExplicitAutomaton.Automaton.AddArc, ExplicitAutomaton.Automaton.SetTerminalLabel: labels are stored as given. The source compresses them through the automaton's descriptor on the way in (include/flipsta/automaton.hpp:192-193, 252-253), which can grow the alphabets. In the model the caller compresses first: AttAutomaton.AddArcLabel passes each symbol sequence through Label.CompressSequence before adding the arc, and Label.Compress states what compression means for every label type.
- SharedAutomatonAtt.WriteAttAutomaton: the last-in, first-out pop order is stated one step at a time (LifoQueue.Pop, and WriteState pushing the fresh destinations in key order), not as one property of the whole run.
- Maps.Map.Remove: the header documents that the key must be present, but shortest distance removes keys that were never set, so the model states no precondition and removing an absent key changes nothing.
- AttAutomaton.LoadStart: proved only when one differs from zero; with a zero weight the start label would erase itself.
- The Python binding's arithmetic on wrapped Python objects (source/flipsta-python/semiring.hpp:157-158,174-175) is Python's own. Only the Zero/One table is modelled.
- The worked orders of the test examples (topological orders and distances on the example automata) are not computed. The model states which order topologicalOrder returns (the traversal's finishVisit states in reverse), that the shortest-distance functions emit their states in that order, and proves the general properties those examples illustrate.
- The semiring laws of AutomatonSemiring are proved for tropical weights, not for every weight semiring.

## Findings

| source | as written | input that shows it | evidently intended | confidence | as-written member | corrected member |
|---|---|---|---|---|---|---|
| include/flipsta/draw.hpp:125 | the final-label branch appends the start label's text to the outside label | a state that is not a start state and has final label "5": the outside label is the text of zero, not "5" | append the final label's text | not executed | Draw.OutsideLabelAsWritten, Draw.OutsideLabelCounterexample | Draw.OutsideLabel, Draw.OutsideLabelShowsBoth |
