# Simulator tooling in Dafny

A Dafny 4.11 model of the tooling around the simulator, and proofs about it. `dafny verify dfyconfig.toml` checks the
whole project. There are five parts.

**The topology compiler** (`topology/`). A program is a dictionary of modules whose blocks hold node, link, use, if, for
and rdma statements. Every block owns one mutable `Scope`, which is overwritten at each instantiation and linked to its
user's scope. `Scopes` and `CodeGenerator` model that with a heap class for the scope and a class for the generator,
field by field. `Elaboration` gives the meaning of a program without any mutable scope: a fresh frame per
instantiation, and as result the straight-line list of node, link and rdma statements, or the exception.
`Generation` says what such a list does to the generator's tables. The central theorem is
`NS3CodeGenerator.Generate`: for every program that does not reenter a module, generation with the reused scopes
leaves exactly the tables that the straight-line list leaves, and ends with the same exception if there is one.
`Elaboration.AcyclicNeverReenters` shows that an acyclic module-use graph is enough, and `Scope.SetParent` shows why it
is needed: linking a scope keeps the parents a finite chain exactly when the scope is not already on that chain, and
otherwise makes them a ring from which no walk along the parents ends.
`Naming` relates declarations inside nested instances to references from outside, `Writer` the writer's pass to the
generator's, `WholeOutput` says what a complete output holds, and `Transformer.Compile` composes tree building,
generation and writing. `ElaborationLaws` says what single statements and expressions mean without the functions that
elaborate them, and what the generator makes of a loop around a condition. `Counterexamples` evaluates two programs that
do not come out as one would expect.

**The trace filter language** (`analysis/trace_filter.hpp`, `analysis/utils.hpp`). `FilterText` reads base expressions
(character classes and operators), `FilterGrammar` holds the recursive parser as a function and, next to it, the
grammar as a relation. `FilterProofs.ParseIffDerives` proves that the parser returns a tree exactly for the texts of the
grammar, and the right one. `TraceFilters` is the C++ class with its nodes on the heap, its `new` and `delete`: a call
that fails has freed all it allocated, each object once, and after a call that succeeds the objects alive are exactly
those of the result. `FilterNumbers` is the reading of numbers, `FilterMeaning` has the bracketing round trip with its
exact range, and `FlowMeaning` what the shorthands accept. `FilterLaws` is said of the texts themselves: which base
expressions are accepted, what their operators and the connectives mean, and where the fields lie in a record.

**Graph algorithms** (`simulation/bindings/python/topsort.py`). `FindCycles` proves the stack-based enumerator of simple
cycles terminating, sound, free of duplicates up to rotation, and complete although visited starts are skipped.
`TopSort` proves both sorts, with cycles reported exactly when there are some.

**The worker pool of test.py**. `WorkerPool` is a state machine: the main thread dispatches, poisons, collects and joins;
any number of workers take, check the flag, start, run and report, each a step of its own; the interrupt flag may be set
between any two steps. A run is any interleaving. `WorkerPoolRuns` proves that it never deadlocks, that every run is
finite, that every finished run has its queues empty, its workers gone and every job collected exactly once, and which
jobs can still start after an interrupt. `WorkerPoolReports` follows the return codes from the step in which a job ends
to the exit code and the summary.

**Small algorithms** (`simulation/bindings/python/rad_util.py`, `analysis/sim-setting.h`). All permutations of a list, the
ripple-carry enumerator of binary numerals with `int2bin` and `bin2int`, and the settings file round trip.

Conventions. An exception of the source is a value of a result type. Where the source iterates over a Python dictionary
or set or a C++ unordered map, the order is a parameter or an arbitrary choice, so the theorems hold for every order.
The `/` of the topology language is Python's floor division, written out for negative divisors (`Scopes.FloorDiv`).
Numbers of fixed width are bounded types (`Memory`), and cuts and wrap-around are written out.

Where the code and what is said about it differ, the model follows the code:

* `int2bin` promises an n-digit numeral; for a width of 0 it cuts off nothing (`Int2BinExactly` has the exact condition),
  and `binary_range(0)` is empty, not the one empty numeral.
* The `&` and `|` of filters have equal precedence and associate to the right.
* The generator types a link from the GPUs declared before it, the writer wires peers from all GPUs; `PassesAgree` has
  the exact condition under which they agree, `Counterexamples.LateGpus` a program on which they do not.
* The text that the filter's `str` prints for a leaf is not in the filter language (`DebugStrRejected`); the
  round trip is about the same bracketing with leaves in source form.
* A reference from outside an instance misses a node inside if a template variable has another value there
  (`ReferenceMeetsExactly` has the exact condition, `Counterexamples.CapturedVariable` a program).
* The interrupt is meant to keep workers from doing real work, but a job whose worker had already looked at the flag is
  still started unless it is to be skipped (`StartsInSpiteExactly` has the exact condition for each job,
  `NothingStartsExactly` that for none, `StartAfterInterrupt` a run).
* With jobs but no worker the pool waits for ever (`NoWorkersNoEnd`). A negative process limit is below the number of
  processors, becomes the number of threads (simulation/test.py:1392-1403), and so leaves the pool without one.
* IsFlow counts TCP data (protocol 6); the flow shorthands leave out exactly that (`TcpNotAccepted`).

## Model

| member | source | states |
|---|---|---|
| Scopes.FloorDivFloors | topology/transformer.py:74-79 | the language's `/` rounds toward minus infinity for either sign of the divisor |
| Scopes.MatchExactly | topology/transformer.py:44-49 | a name has a template exactly if some `}` comes after some `{`, and it is cut at the first of each |
| Scopes.InnermostBinding | topology/transformer.py:35-42 | lookup returns the value of the innermost scope that binds the name |
| Scopes.UnboundName | topology/transformer.py:40-42 | lookup of a name bound nowhere on the chain fails with that name |
| Scopes.Scope.constructor | topology/transformer.py:23-27 | a new scope has no parent, no values and an empty prefix |
| Scopes.Scope.SetParent | topology/transformer.py:29-30 | linking to the head of a parent chain makes a longer finite chain exactly when the scope is not already on it, and a ring when it is |
| Scopes.RingHasNoEnd | topology/transformer.py:35-61 | from a scope whose parents run in a ring no walk along the parents ends |
| Scopes.Scope.LookupName | topology/transformer.py:35-42 | terminates on every finite chain and agrees with lookup in the list of frames the chain stands for |
| Scopes.Scope.ResolveNameWithVar | topology/transformer.py:44-51 | the first template is replaced by the printed value looked up on the same chain |
| Scopes.Scope.GetNodeNamePrefix | topology/transformer.py:53-61 | terminates and joins the resolved non-empty prefixes from the outermost scope inward |
| Scopes.Scope.EvaluateHere | topology/transformer.py:89-103 | expressions are resolved left before right against the chain; strings lose one pair of braces, quantities fail |
| Elaboration.BindLast | topology/ns3codegen.py:114-115 | exactly the parameters are bound, a repeated one to the last of its arguments |
| Elaboration.AcyclicNeverReenters | topology/ns3codegen.py:202-210 | a program whose module-use graph can be ranked never uses a module inside its own instantiation |
| Generation.CountersCount | topology/ns3codegen.py:144-153 | each node counter is the number of node statements of its kind carried out, the link id counter that of link statements |
| Generation.SettingsAreLast | topology/ns3codegen.py:236-238 | a setting has the value of the last rdma statement for it |
| Generation.AlwaysInv | topology/ns3codegen.py:188-200 | in every reachable state node ids are distinct and below their counter, helper ids are dense in first-use order with one per distinct tuple, link ids are dense, and the fabric flag says whether a qbb link exists |
| Generation.LinkRecorded | topology/ns3codegen.py:188-198 | every link statement is in the final list, in order, with a helper whose attributes are exactly those of the link when it was generated |
| Generation.FinishedList | topology/ns3codegen.py:98-108 | the final list is: three node counts, the helpers 0, 1, ... with distinct attributes, the links with declared helpers and dense ids, and the fabric last and only if some link is qbb |
| CodeGenerator.NS3CodeGenerator.constructor | topology/ns3codegen.py:75-94 | all tables are empty and all counters zero |
| CodeGenerator.NS3CodeGenerator.GenNewNode | topology/ns3codegen.py:136-155 | the node is entered under its flat name in the dictionary of its kind, with the failures in the source's order |
| CodeGenerator.NS3CodeGenerator.GenNewLink | topology/ns3codegen.py:157-200 | both ends are resolved and prefixed, the type and MTU chosen, the helper interned and the link appended, or the same failure and no change |
| CodeGenerator.NS3CodeGenerator.InstallBetween | topology/ns3codegen.py:171-200 | type from the GPUs declared so far, MTU from the link, the rdma settings so far or 9000; a missing attribute fails without effect |
| CodeGenerator.NS3CodeGenerator.AppendLink | topology/ns3codegen.py:188-200 | the helper is interned once per tuple and the link gets the next id |
| CodeGenerator.NS3CodeGenerator.GenRdmaConfig | topology/ns3codegen.py:236-238 | the settings are resolved and stored one after the other, up to the first failure |
| CodeGenerator.NS3CodeGenerator.GenerateModule | topology/ns3codegen.py:110-117 | one instantiation with the reused scope has the effect of elaborating the block with a fresh frame, leaves every scope on the stack as it was and all scopes tidy |
| CodeGenerator.NS3CodeGenerator.BindParams | topology/ns3codegen.py:114-115 | whatever an earlier instantiation left in the block's scope, afterwards it holds the new binding and nothing else |
| CodeGenerator.NS3CodeGenerator.GenerateInsn | topology/ns3codegen.py:119-134 | one statement has the effect of its straight-line expansion |
| CodeGenerator.NS3CodeGenerator.GenSubmodule | topology/ns3codegen.py:202-210 | a use inlines the module under the instance's name, its arguments resolved in the user's scope |
| CodeGenerator.NS3CodeGenerator.GenIf | topology/ns3codegen.py:212-224 | with the reused scope an `if` has the effect of its expansion, which `ElaborationLaws.IfLaw` fixes by the relations between the two numbers; units fail |
| CodeGenerator.NS3CodeGenerator.GenLoop | topology/ns3codegen.py:226-232 | the body is unrolled over the inclusive range |
| CodeGenerator.NS3CodeGenerator.Iterate | topology/ns3codegen.py:233-234 | the iterations run in order up to the first failure, each with the one reused scope |
| CodeGenerator.NS3CodeGenerator.Generate | topology/ns3codegen.py:96-108 | for every program that reenters no module, generation ends and leaves the same tables, links, helpers, settings and failure as the straight-line program |
| ElaborationLaws.ArithmeticLaw | topology/transformer.py:89-103 | the four operators add, subtract, multiply and divide with rounding down; division by zero fails |
| ElaborationLaws.NameLaw | topology/transformer.py:35-42 | a name, in braces or without, evaluates to its innermost binding |
| ElaborationLaws.ArgumentsLaw | topology/ns3codegen.py:202-210 | the arguments of a use are evaluated in order: the i-th value is that of the i-th argument, and the first failure decides |
| ElaborationLaws.IfLaw | topology/ns3codegen.py:212-224 | for each of the six comparisons the statement is its block if the relation holds between the two numbers, and nothing otherwise |
| ElaborationLaws.NodeLaw | topology/ns3codegen.py:144-155 | `gpu`, `switch` and `nvswitch` declare a node of that kind; any other word fails |
| ElaborationLaws.LinkLaw | topology/ns3codegen.py:157-186 | a link joins source and destination in that order with the attributes given; latency and bandwidth are required in this order, the MTU is optional |
| ElaborationLaws.SettingsLaw | topology/ns3codegen.py:236-238 | an rdma statement sets its settings in order to the values of their expressions |
| ElaborationLaws.GuardedFlattens | topology/ns3codegen.py:212-234 | for all n and k, `for i in (1, n) { if i < k { node x{i} type=gpu } }` stands for x1, x2, ... up to n and below k, in order, each once |
| ElaborationLaws.GenerateGuarded | topology/ns3codegen.py:96-108 | the generator, run on that program, ends with exactly these GPUs numbered from 0, no other node and the three counts as list |
| Text.JoinInjective | topology/transformer.py:59-61 | different paths of non-empty, underscore-free segments have different flat names |
| Naming.PrefixIsPath | topology/transformer.py:53-61 | the prefix is the underscore-joined path of resolved instance names |
| Naming.NodeNameIsPath | topology/ns3codegen.py:139-143 | a node's flat name is its path and own name, joined |
| Naming.EndIsPath | topology/ns3codegen.py:158-167 | a link end is the path of the enclosing scope and the resolved reference, joined |
| Naming.DeclarationMeetsReference | topology/ns3codegen.py:157-167 | at any nesting depth a reference by instance names, at either end of a link, reaches the node declared inside, if template variables have the same values in both scopes |
| Naming.ReferenceMeetsExactly | topology/ns3codegen.py:157-167 | for non-empty, underscore-free segments it reaches the node if and only if they do |
| Naming.FlatNamesDistinct | topology/ns3codegen.py:136-143 | nodes with equal flat names have the same path and the same own name |
| Counterexamples.CapturedVariable | topology/transformer.py:53-61 | a program with a loop variable and a module parameter of the same name: the node is e5_x, the link beside it goes to e1_x, and the output cannot be written |
| Writer.NS3Writer.EmitLinkInstall | topology/ns3writer.py:145-181 | the install statement and, between two GPUs, the six peer statements, with the ends that `WholeOutput.OutputInstalls` fixes; an unknown end fails before anything is written |
| Writer.NS3Writer.HandleInsn | topology/ns3writer.py:77-129 | each instruction appends its statements or fails and writes nothing |
| Writer.NS3Writer.Write | topology/ns3writer.py:22-30 | the lines are those of all instructions in order, or the first failure |
| Writer.NodeExprsSound | topology/ns3writer.py:135-143 | every emitted `Get(k)` is below the number of nodes created in its container, and different names have different node expressions |
| Writer.DeclaredNodes | topology/ns3codegen.py:144-155 | a name is in the dictionary of a kind exactly when it has been declared with that kind |
| Writer.LinkAttributes | topology/ns3codegen.py:171-188 | a link is typed p2p exactly if both ends are GPUs declared before it; its MTU is its own, or for a qbb link the last rdma "Mtu" before it, or 9000 |
| Writer.PassesAgree | topology/ns3writer.py:145-181 | the writer fails on a link exactly when an end is declared nowhere, and wires peers exactly for the links typed p2p if and only if both GPUs, when declared at all, are declared before the link |
| Writer.ContainersDistinct | topology/ns3writer.py:145-157 | container names `devs{h}_{l}` of different links never clash |
| Writer.WriteSucceeds | topology/ns3writer.py:110-143 | writing succeeds exactly when every link's ends are declared and its latency and bandwidth are quantities |
| Counterexamples.LateGpus | topology/ns3codegen.py:171-174 | a program that links two GPUs before declaring them: the link is typed qbb, the writer wires the two as peers all the same, and no error is reported |
| WholeOutput.OutputGrounded | topology/ns3writer.py:22-30 | a complete output creates in front exactly as many nodes of each kind as are declared and declares the helpers; behind, every install statement finds its two nodes and its helper there |
| WholeOutput.OutputWiring | topology/ns3writer.py:160-187 | a peer statement is in a complete output exactly if it belongs to an end of a link between two GPUs (send and receive through the own device, the address of the peer's), and then once |
| WholeOutput.OutputInstalls | topology/ns3writer.py:145-158 | each link statement has exactly one install statement with its link id; it uses the helper with the link's attributes and joins the nodes named by source and destination, in that order |
| WholeOutput.PeersFollowInstall | topology/ns3writer.py:160-187 | a peer statement has the helper of the install statement of its link; the node at the device's side of that statement sends and receives, the other is told the address |
| WholeOutput.PeersHaveInstall | topology/ns3writer.py:160-187 | every peer statement has such an install statement |
| WholeOutput.OutputHelpers | topology/ns3writer.py:110-129 | the declared helpers are those of the links, with their type, MTU, delay and rate |
| WholeOutput.OutputFabric | topology/ns3codegen.py:98-108 | the fabric is built exactly if some link is typed qbb, as last statement, right after one that sets each setting to the value of the last rdma statement for it |
| Transformer.FoldBinop | topology/transformer.py:306-314 | the loop builds the left-leaning expression |
| Transformer.FoldEvaluates | topology/transformer.py:306-314 | a folded chain evaluates from left to right, with the failures in that order |
| Transformer.EraseFlatten | topology/transformer.py:177-184 | what a program stands for does not depend on its scopes |
| Transformer.BuildBlock | topology/transformer.py:177-187 | every block of the built tree has a new scope of its own, and the tree is the parsed one |
| Transformer.Transform | topology/transformer.py:201-215 | the dictionary has the parsed modules, all scopes new, distinct and empty |
| Transformer.Compile | topology/main.py:18-30 | from the parse tree the output is what the writer makes of the straight-line program, or the failure of the generator or the writer; it is complete exactly for programs that elaborate without failure and are writable |
| FilterText.ScanAtomComplete | analysis/trace_filter.hpp:237-238 | a text has at most one reading as a base expression and the scanner finds it |
| FilterText.ScanAtom | analysis/trace_filter.hpp:237-247 | what the scanner returns is a reading of the whole text |
| FilterProofs.StripExactly | analysis/trace_filter.hpp:320-346 | exactly the outer brackets are stripped: matching brackets around the whole text, as often as there are any |
| FilterProofs.ParseSound | analysis/trace_filter.hpp:240-319 | a returned tree is one the grammar gives the text |
| FilterProofs.ParseComplete | analysis/trace_filter.hpp:240-346 | every text of the grammar is parsed to its tree; the parser ends by the measure (may still hold a shorthand, length) |
| FilterProofs.ParseIffDerives | analysis/trace_filter.hpp:240-380 | the parser returns a tree exactly for the texts of E ::= T or T op E, T ::= atom or ( E ), with known fields or valid shorthands, and the tree is unique |
| FilterSyntax.ExpansionLiteral | analysis/trace_filter.hpp:347-380 | no expansion of a shorthand holds a shorthand again |
| FilterSyntax.ExpansionFits | analysis/trace_filter.hpp:355-375 | every expansion fits into its buffer of 512 characters, with the end mark |
| FilterNumbers.LongReadsDecimal | analysis/trace_filter.hpp:189-192 | `%li` reads back a number printed in decimal, up to the largest signed 64-bit number, and larger ones as that |
| FilterMeaning.ParsePrint | analysis/trace_filter.hpp:240-319 | every written filter is read with equal precedence, to the right, and with brackets grouping |
| FilterMeaning.FieldsExpressible | analysis/trace_filter.hpp:189-235 | every test that GetField builds can be written back as a base expression, with a value in the range of `%li` if the number was |
| FilterMeaning.LongIsFaithful | analysis/trace_filter.hpp:191-192 | a scanner that reads numbers as `%li` does meets what the theorems ask of the scanner |
| FilterMeaning.StrReread | analysis/trace_filter.hpp:385-391 | for every scanner the bracketing of `str`, with leaves in source form, is parsed back to the same shape, each value as the scanner reads it |
| FilterMeaning.StrRoundTrip | analysis/trace_filter.hpp:385-391 | it is parsed back to the same tree, for all values in the range of `%li` |
| FilterMeaning.StrRoundTripExactly | analysis/trace_filter.hpp:385-391 | with the program's scanner it is parsed back to the same tree if and only if all values are in that range |
| FilterMeaning.DebugStrRejected | analysis/trace_filter.hpp:75-79 | the leaf text that `str` prints makes the whole text unacceptable to the parser, for every tree |
| FlowMeaning.FlowShorthands | analysis/trace_filter.hpp:347-366 | `flow`, `rflow` accept exactly the records of the flow, of the reversed flow; `biflow` exactly their union |
| FlowMeaning.TcpNotAccepted | analysis/trace_filter.hpp:355-358 | of the records that utils.hpp counts as part of a flow, going between its ends, `flow` leaves out exactly the TCP data |
| FlowMeaning.QueueShorthand | analysis/trace_filter.hpp:367-377 | `queue` accepts exactly the records of the node, interface and queue given |
| FlowMeaning.BaseAccepts | analysis/trace_filter.hpp:56-67 | a base expression compares, by the relation that `FilterLaws.OperatorTexts` gives for each operator, the record's field with the number, cut to the field's width |
| FlowMeaning.AcceptedFlowInt | analysis/utils.hpp:25-59 | a record accepted by `flow` has the flow id of the given 4-tuple, one accepted by `rflow` has it in reverse |
| FlowMeaning.FlowIntInjective | analysis/utils.hpp:25-31 | two flow ids are equal exactly when the ports and the middle bytes of the addresses are |
| FlowMeaning.AckMeetsData | analysis/utils.hpp:62-67 | a data record and the ACK or NACK with swapped ends have the same standard flow id |
| FlowMeaning.FlowIntFields | analysis/utils.hpp:25-31 | a flow id holds, from the highest 16 bits down, the middle bytes of the source, those of the destination, the source port and the destination port |
| FlowMeaning.MiddleBytes | analysis/utils.hpp:27 | the middle bytes of an address are its second and third byte in the record |
| FlowMeaning.StandardDirection | analysis/utils.hpp:61-67 | the standard id of a record that `flow` accepts, not ACK or NACK, and of an ACK or NACK that `rflow` accepts, is the id of the given 4-tuple |
| FilterLaws.BaseAccepted | analysis/trace_filter.hpp:347-380 | a base expression is accepted exactly if its field is known, or it is `flow`, `biflow`, `rflow` with `=` and a value that reads as four numbers, or `queue` with `=` and a value that reads as three |
| FilterLaws.ShorthandNeedsEquals | analysis/trace_filter.hpp:352 | a shorthand followed by `>`, `>=`, `<`, `<=` or `!=` is refused |
| FilterLaws.OperatorTexts | analysis/trace_filter.hpp:56-67 | for every known field the texts `=`, `>`, `>=`, `<`, `<=`, `!=` mean these relations between the stored number and the one written, cut to the field's width |
| FilterLaws.ConnectiveTexts | analysis/trace_filter.hpp:138-148 | `&` asks for both sides, the bar for one of them, brackets change nothing |
| FilterLaws.FieldsLieAsDeclared | analysis/trace-format.h:19-65 | the offsets and widths of the header fields are those of the structure, each member aligned to its size |
| FilterLaws.UnionLiesAsDeclared | analysis/trace-format.h:19-65 | those of the ports, of data.seq and of ack.flags are those of the union's members; the record has 56 bytes |
| TraceFilters.Node.Test | analysis/trace_filter.hpp:138-148 | the nodes on the heap test as the tree they stand for; `FilterLaws.OperatorTexts` and `FilterLaws.ConnectiveTexts` say what such a tree tests |
| TraceFilters.SkipSpace | analysis/trace_filter.hpp:184-187 | the index of the first character from i on that is no space |
| TraceFilters.StripOuterBracket | analysis/trace_filter.hpp:320-346 | the loops find the brackets that the specification function strips |
| TraceFilters.TraceFilter.Clear | analysis/trace_filter.hpp:149-160 | everything below a node is deleted, each object once |
| TraceFilters.TraceFilter.ParseShorthand | analysis/trace_filter.hpp:347-380 | the parser is reentered on the expansion, which exists exactly for the texts of `FilterLaws.BaseAccepted`; nothing is left alive on failure |
| TraceFilters.TraceFilter.Join | analysis/trace_filter.hpp:306-316 | a failing right side frees the whole left tree; otherwise both become the sons of a new node |
| TraceFilters.TraceFilter.ParseNode | analysis/trace_filter.hpp:240-319 | the result is the specified tree; on success exactly its objects, all new and with one owner each, are added to the live ones, on failure none |
| TraceFilters.TraceFilter.ParseFilter | analysis/trace_filter.hpp:180-182 | the root is the parsed tree or null |
| TraceFilters.TraceFilter.TestRecord | analysis/trace_filter.hpp:173-177 | without a tree every record passes |
| FindCycles.IsRotated | simulation/bindings/python/rad_util.py:735-775 | true exactly for rotations; fails exactly for two empty sequences |
| FindCycles.Collect | simulation/bindings/python/topsort.py:369-378 | a cycle is added exactly when no rotation of it is there |
| FindCycles.VisitChildren | simulation/bindings/python/topsort.py:362-385 | each child either closes a cycle, which is collected, or extends the path on the stack; the steps owed drop by one |
| FindCycles.SearchComplete | simulation/bindings/python/topsort.py:351-385 | when the stack is empty every cycle reachable from the start has been found |
| FindCycles.SearchFrom | simulation/bindings/python/topsort.py:351-385 | the search from one start ends, keeps the collection genuine and covers the start |
| FindCycles.CoveredDownstream | simulation/bindings/python/topsort.py:346-349 | a node reached by an earlier search needs no search of its own |
| FindCycles.FindCycles | simulation/bindings/python/topsort.py:343-385 | it ends and yields only simple cycles, no two of them rotations, and every simple cycle up to rotation |
| TopSort.BuildTables | simulation/bindings/python/topsort.py:77-90 | the counts are the numbers of pairs into each element, the lists the children with repetitions |
| TopSort.NextChild | simulation/bindings/python/topsort.py:100-103 | a visited child is still in the table with a positive count |
| TopSort.StuckIsCyclic | simulation/bindings/python/topsort.py:108-111 | elements that remain without a zero count hold a cycle |
| TopSort.OrderedIsAcyclic | simulation/bindings/python/topsort.py:112 | a topological order excludes cycles |
| TopSort.Topsort | simulation/bindings/python/topsort.py:61-112 | returns exactly for acyclic pair lists, each element once with parents first; otherwise the tables of what remains, with exact positive counts |
| TopSort.TopsortLevelsCore | simulation/bindings/python/topsort.py:203-232 | level k is exactly the elements whose longest chain of predecessors has length k; a cycle is reported exactly when elements remain; without one the levels concatenate to a topological order |
| TopSort.TopsortLevels | simulation/bindings/python/topsort.py:157-172 | the same from the pair list, with exact positive counts of what remains in the error |
| WorkerPoolRuns.RunInv | simulation/test.py:965-1033 | in every reachable state each taken job is in exactly one place, the queue holds the untaken jobs in order and then pills, and every report is truthful |
| WorkerPoolRuns.NeverStuck | simulation/test.py:1686-1826 | until the main thread has finished some step other than the interrupt is possible, if there is a worker or no job |
| WorkerPoolRuns.NoWorkersNoEnd | simulation/test.py:1392-1406 | with jobs and no worker, which a negative process limit leads to, no run finishes |
| WorkerPoolRuns.RunsEnd | simulation/test.py:965-1033 | every run is finite, bounded by 7 steps per job, 3 per worker and 5 |
| WorkerPoolRuns.RunsCanFinish | simulation/test.py:1664-1826 | every run can be continued to the end |
| WorkerPoolRuns.FinishedRun | simulation/test.py:1686-1912 | at the end all workers have exited, both queues are empty, each job was collected exactly once with a truthful outcome, and the exit code is 0 exactly when every job was reported as passed or skipped; `WorkerPoolReports.CollectedAsRun` ties the reports to the runs |
| WorkerPoolReports.CollectedAsRun | simulation/test.py:1007-1019 | in every finished run that goes on after a job ended with a return code, the one report collected for the job has that code |
| WorkerPoolReports.CodeFromStep | simulation/test.py:1007-1019 | every report of a return code comes from a step of the run in which a job ended with it |
| WorkerPoolReports.ExitCodeExactly | simulation/test.py:1909-1912 | the exit code of a finished run is 0 if and only if no job came back as a break and every job that ran ended with return code 0, and 1 otherwise |
| WorkerPoolReports.SummaryExactly | simulation/test.py:1686-1719 | passed, failed and valgrind count the collected return codes 0, 1 and 2, skipped the skipped jobs, and with the crashed ones and the uncounted breaks they make up all that was collected |
| WorkerPoolRuns.NoExitBeforeWork | simulation/test.py:972-973 | no worker exits while a real job is still to be dispatched or queued |
| WorkerPoolRuns.StartedOnce | simulation/test.py:979-1021 | no job is started twice |
| WorkerPoolRuns.BrokenNeverStarts | simulation/test.py:979-982 | a job whose worker saw the flag set is never started and comes back as a break |
| WorkerPoolRuns.StartsInSpiteExactly | simulation/test.py:979-1021 | in every run that finishes a job has been started if and only if it had been when the flag was set, or a worker had cleared it by then and it is not to be skipped |
| WorkerPoolRuns.NothingStartsExactly | simulation/test.py:979-1021 | in a run that finishes no job starts after the flag is set if and only if every job cleared by then is one to be skipped |
| WorkerPoolRuns.FewStartsAfterInterrupt | simulation/test.py:979-1021 | at every later moment, in runs that finish and in others, at most one more job for each worker has been started, each of them cleared when the flag was set |
| WorkerPoolRuns.StartAfterInterrupt | simulation/test.py:979-1007 | a run in which it happens: the interrupt comes between reading the flag and starting the job |
| WorkerPoolRuns.UninterruptedRunsAll | simulation/test.py:988-1033 | without an interrupt exactly the jobs not to be skipped have been started |
| Permutations.AllPermutations | simulation/bindings/python/rad_util.py:310-326 | the recursion with its two loops builds the specified list |
| Permutations.PermsAreRearrangements | simulation/bindings/python/rad_util.py:293-326 | the results are exactly the rearrangements of the input |
| Permutations.PermCount | simulation/bindings/python/rad_util.py:293-326 | there are n! of them |
| Permutations.PermsDistinct | simulation/bindings/python/rad_util.py:293-326 | for distinct items they are pairwise different |
| BinaryRange.NibbleValue | simulation/bindings/python/rad_util.py:91-94 | the table gives every hex digit its four bits |
| BinaryRange.Int2BinPads | simulation/bindings/python/rad_util.py:95-105 | for a positive width the numeral of that width, or a ValueError if the number needs more digits |
| BinaryRange.Int2BinExactly | simulation/bindings/python/rad_util.py:74-105 | an n-digit numeral of i is returned exactly for n of at least 1 and i from 0 below 2^n; a negative i is a KeyError; a width of 0 never fails |
| BinaryRange.BinRoundTrip | simulation/bindings/python/rad_util.py:108-130 | for every width `bin2int` undoes `int2bin` where that returns a non-empty text; it is empty exactly for 0 and a width of -4 or less |
| BinaryRange.IncrementCounts | simulation/bindings/python/rad_util.py:649-659 | rippling a carry counts up by one and overflows exactly after the last numeral |
| BinaryRange.Ripple | simulation/bindings/python/rad_util.py:650-659 | the inner loop, on both arrays in place, adds one and leaves the carry in the last toggle |
| BinaryRange.BinaryRange | simulation/bindings/python/rad_util.py:639-660 | for a positive width exactly 2^bits strings, the k-th the one `int2bin` gives; empty for 0 and -1, an IndexError below |
| SimSettings.FewEntries | analysis/sim-setting.h:17-21 | the 32-bit count of entries cannot wrap around |
| SimSettings.EntryLayout | analysis/sim-setting.h:23-26 | an entry is the node in two bytes, the port in one and the speed in eight, the low byte of each first |
| SimSettings.ImageLayout | analysis/sim-setting.h:16-29 | the file is the count in four bytes, entry i in the eleven bytes from 4 + 11 * i on, and the window in the last four |
| SimSettings.SimSetting.CountEntries | analysis/sim-setting.h:17-21 | the counting loops give the number of entries |
| SimSettings.SimSetting.Serialize | analysis/sim-setting.h:15-30 | for any iteration order of both maps the file grows by the count, the entries in that order and the window |
| SimSettings.SimSetting.Deserialize | analysis/sim-setting.h:31-50 | the assertion holds exactly when all announced bytes are there; then the entries are installed, the window set and the position right behind them |
| SimSettings.ImageRead | analysis/sim-setting.h:31-47 | written bytes, whatever stands around them, are read as the same entries and window and nothing more |
| SimSettings.EntriesRestore | analysis/sim-setting.h:36-44 | the entries in any order restore every port speed; only nodes without ports vanish |
| SimSettings.RoundTrip | analysis/sim-setting.h:15-51 | reading written settings into an empty object restores every speed and the window and leaves what follows unread |

## Left out

- The C++ text of the writer: headers, main function, comments and indentation; statements are values, and the sorted
  settings lines of the fabric are one `Configure` statement. Writing the file is not modelled.
- grammar.lark and the tokens of the topology language: programs start as the tree the parser hands to the transformer.
- Python's identity comparison of `Expr` objects in link attributes: attributes are values compared by structure, so two
  links with equal unresolved expressions share a helper here.
- Scopes.Match: `.` of the regular expression does not match a line break; names with line breaks are not modelled.
- CodeGenerator.NS3CodeGenerator.Generate: programs that use a module inside its own instantiation are excluded. The
  parents of their scopes run in a ring, so that prefixes and unbound names are looked up for ever; a recursion that
  looks up bound names only, or just holds rdma statements, ends in the source and is not described. The outcome
  `Reentered` marks these programs and is no exception of the source.
- Transformer.Compile: the same programs are excluded.
- Writer.PassesAgree: says nothing about names declared in two kinds beyond the order in which the writer looks them up.
- `std::regex`: base expressions are read by character classes; characters outside ASCII are left out.
- `sscanf`: the formats of the shorthands are an arbitrary function. A value text that is no number at all leaves the
  variable of GetField unset in the source; here it has some 64-bit value.
- The settings of an rdma statement are a list of entries; that the source's dictionary has each name once is not used.
- TraceFilters.TraceFilter.ParseFilter: a tree from an earlier call is not freed by the source and stays alive here.
- Destruction of fields through their base class: a field is one object here.
- Consumers that change a yielded cycle or level, or the tables, while a generator is still running.
- TopSort.TopsortLevelsCore: takes tables that belong together, as its documentation says, not arbitrary ones.
- In test.py: building the job list, options, reports and files, and the subprocess; a job run is an arbitrary return
  code and is assumed to return.
- FindCycles.FindCycles: the nodes of the dictionary are compared by equality; the sharing of yielded lists is not modelled.
- BinaryRange.BinRoundTrip: signs, spaces and prefixes that Python's `int(s, 2)` also reads are not modelled, nor its
  error on the empty text.
- `gcf`, `lcm`, `reduce_fraction`, `lsb` and `gray_encode` of rad_util.py, and its float, time and introspection functions:
  they would add easy members only.
- SimSettings.SimSetting.Deserialize: after a short read the source's assertion aborts the program; with assertions
  compiled out it would go on with unspecified numbers, which is not modelled.
- The simulator itself (switches, RDMA, MMU), the example programs and the plotting scripts.
