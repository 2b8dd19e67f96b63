# pathling core in Dafny

pathling finds values matching a predicate anywhere inside nested Clojure
data (maps, vectors, sets, lists and scalars) and can rebuild the data with
the matches replaced or removed. This project models its Java core.

- **The scanners.**
  - `ScannerMatches` and `ScannerMatchesKeys` collect the matches.
  - `ScannerMatchesXf` feeds the matches through a transducer.
  - `ScannerMatchesNav` collects the matches and also records a navigation
    tree (a *nav*) of the positions that matched.
  - `Transform` and `TransformKeys` build the nav without collecting the
    matches and then replay it with a transform function.
- **The replay engine (`Nav`).**
  - Each nav variant rebuilds its collection with its own strategy: a
    transient, persistent operations, an array list, or a list built by
    consing.
  - At each matched position (a *terminal*) it calls a *replacer*. A replacer
    returns a new value or the REMOVE sentinel.
  - `ListReplacer` hands out a precomputed list of replacements in order.

## How the model is arranged

- **Clojure values** become the datatype `Values.Value`.
  - A map is a sequence of entries with distinct keys. `Values.ToMap` is its
    map view.
  - A set is a sequence of distinct members.
  - A list is a sequence of items.
  - Each composite carries a kind (struct, hash, array or sorted map;
    persistent vector or sub-vector; hash or sorted set) and an opaque
    metadata tag.
- **REMOVE** is the `Removed` case of `Values.Out`. A value itself never
  contains REMOVE.
- **Nav records** become the datatype `NavSpec.Nav`, one constructor per
  sealed variant. A null children list is the empty sequence: the builders
  never record an empty non-null list.
- **What the code computes** is written as functions:
  - `ScanSpec.Matches` is the match list of a scan.
  - `ScanSpec.NavOf` is the nav the builders record.
  - `NavSpec.Replay` is the outcome of `applyUpdates`. It returns the outcome
    together with the replacer's state afterwards.
- **The code itself** is written as imperative methods, loop for loop.
  - Each method is proved equal to its specification function.
  - Each loop body that recurses into a child is a step method of its own.
- **The mutable pieces** become classes:
  - the match list, `Buffers.MatchBuffer`;
  - the replacer with its cursor, `Replacers.Replacer`;
  - the transducer's reducing function with its list,
    `ScannerMatchesXf.Reducer`.
- **The vector-removal helper** fills a Dafny `array` for its adopt branch,
  as the source fills an `Object[]`.
- **The keys flag.**
  - The same walks serve both variants of a scanner. `keys == false` is
    `ScannerMatches`, `ScannerMatchesNav` and `Transform`.
  - `keys == true` is `ScannerMatchesKeys` and `TransformKeys`.
  - `TransformKeys` differs only in its loop over the entries of a
    non-struct map.

The main results:

- **The recorded nav is consistent with the matches.**
  - It fits the value it was built from (`ScanLemmas.NavFits`).
  - It exists exactly when the scan found a match.
  - Replaying it makes exactly one replacer call per match (`ScanLemmas.NavCalls`).
  - So a list replacer holding one replacement per match is never exhausted.
- **Replaying the matches rebuilds the data.** Take a list whose every
  replacement is the match itself, in discovery order. Replaying with it
  returns the original value and consumes the whole list
  (`ReplayLaws.ListReplayOfMatches`). Applying the identity function does
  the same (`ReplayLaws.TransformIdentity`).
  - This holds for values with no set and no sub-vector, without key
    testing, and for the list replacement also with no empty list.
  - The "Left out" section says why those are excluded.
- **The running scanners agree with the specifications.**
  - Each scanner's result is its match list as `Matches` defines it.
  - With the identity transducer, `ScannerMatchesXf` gives the plain result.
    With `(take n)` it gives the first n matches (`ScannerMatchesXf.TakeFirst`).
- **Vector removal.** `removeIndices` keeps exactly the unlisted elements, in
  order, and the result has count minus removals elements. Both of its
  branches compute the same vector.

Where the plain and key-testing variants behave differently, the model
follows the code of each:

- **Struct-map keys.** `ScannerMatchesKeys` tests the keys of every map,
  struct maps included. `TransformKeys` never tests the keys of a struct
  map. So a struct-map key can be a match of the key-testing scan without
  being transformed. Every struct-map key that matches is in the key-testing
  matches, while the nav of the map holds only `Val` children
  (`ScanLemmas.StructMapKeysDiffer`, with a concrete instance in
  `ScanLemmas.StructMapKeysDifferExample`).
- **Key replay order.**
  - The key-testing scans test a map entry's value subtree first and its key
    after.
  - A `KeyVal` child replays the key first and the value after.
  - So with key testing the replay order of a map's calls differs from the
    discovery order of its matches.

The verifier checks every proof; nothing was executed.

## Model

| member | source | states |
|---|---|---|
| Values.WithMeta | src/co/multiply/pathling/Nav.java:475-480 | metadata is attached only when it is non-nil and the value is a composite; otherwise the value comes back unchanged, and the kind of collection never changes |
| Values.Get | src/co/multiply/pathling/Nav.java:94 | RT.get on a map: the value at the key when present, nil when absent |
| Values.Assoc | src/co/multiply/pathling/Nav.java:96 | assoc: the map view becomes the old one with k bound to v; no entry appears except one for k; keys stay distinct |
| Values.Dissoc | src/co/multiply/pathling/Nav.java:122 | without: the map view loses exactly k; keys stay distinct |
| Values.Conj | src/co/multiply/pathling/Nav.java:389 | conj on a set: the member set gains x; members stay distinct |
| Values.Disj | src/co/multiply/pathling/Nav.java:382 | disjoin: the member set loses x; members stay distinct |
| Replacers.Source.Replace | src/co/multiply/pathling/Replacer.java:14-20 | one replace call: a list replacer returns replacements[idx] and moves its cursor by one; a function replacer returns f(v) and keeps its state |
| Replacers.ListReplacerIsPositional | src/co/multiply/pathling/ListReplacer.java:8-10 | the k-th call of a list replacer returns the k-th list element, whatever it is called on; the cursor ends past them |
| Replacers.FunctionReplacerIsPointwise | src/co/multiply/pathling/FunctionReplacer.java:16-19 | a sequence of calls of a function replacer returns f applied to each argument |
| Replacers.Replacer.Function | src/co/multiply/pathling/FunctionReplacer.java:12-14 | the new replacer is the function replacer of f |
| Replacers.Replacer.List | src/co/multiply/pathling/ListReplacer.java:23-25 | the new replacer is the list replacer over the list, cursor at 0 |
| Replacers.Replacer.Replace | src/co/multiply/pathling/ListReplacer.java:27-30 | the returned value and the new state are those of Source.Replace on the old state |
| NavSpec.Replay | src/co/multiply/pathling/Nav.java:34-44 | applyUpdates on a nav that fits its data advances the replacer by exactly Calls(n) calls |
| NavSpec.Rebuild | src/co/multiply/pathling/Nav.java:127-129 | a nav with no recorded children hands the data back unchanged; the rebuild advances the replacer by the children's calls |
| NavSpec.DropKeys | src/co/multiply/pathling/Nav.java:83-90 | the first pass of a two-pass map update removes exactly the recorded keys from the map view and keeps keys distinct |
| NavSpec.ReinsertStep | src/co/multiply/pathling/Nav.java:92-112 | second pass, one child: a Val child puts the replayed value back under its own key, and nothing when the value is REMOVEd; a Key child re-adds the original value under the replaced key; Key and KeyVal children add nothing when the key is REMOVEd; a KeyVal child adds the replayed value under the new key, and nothing when the value is REMOVEd |
| NavSpec.ValStep | src/co/multiply/pathling/Nav.java:117-123 | single pass, one Val child: a kept outcome is assoc'ed at the key; REMOVE dissocs the key, but a struct map gets nil instead |
| NavSpec.ValPass | src/co/multiply/pathling/Nav.java:116-124 | the single pass leaves every unrecorded key and its value as it was and adds no key outside the recorded ones; a struct map keeps exactly its old keys plus the recorded ones |
| NavSpec.ValStepFrame | src/co/multiply/pathling/Nav.java:214-219 | a single-pass step changes only its own key, and a struct-map step keeps that key |
| NavSpec.Outcomes | src/co/multiply/pathling/Nav.java:240-249 | one outcome per recorded position or member, replayed on the original element, with the replacer advanced by those children's calls |
| NavSpec.DisjAll | src/co/multiply/pathling/Nav.java:380-383 | the first set pass removes exactly the recorded members |
| NavSpec.ConjAll | src/co/multiply/pathling/Nav.java:384-391 | the second set pass adds exactly the kept outcomes |
| NavSpec.CollapseAppend | src/co/multiply/pathling/Nav.java:340-354 | dropping the REMOVEs of a concatenation is concatenating the filtered halves |
| NavSpec.CollapseLift | src/co/multiply/pathling/Nav.java:352-354 | with no removal the filtered list is the list itself |
| NavReplay.ApplyUpdates | src/co/multiply/pathling/Nav.java:36-44 | the dispatch over the nav variants computes Replay: the same outcome and the same replacer state afterwards |
| NavReplay.MapEditableApply | src/co/multiply/pathling/Nav.java:74-131 | MapEditable.applyUpdates computes Replay |
| NavReplay.TwoPass | src/co/multiply/pathling/Nav.java:81-113 | the two loops compute DropKeys and then Reinsert |
| NavReplay.ReinsertChild | src/co/multiply/pathling/Nav.java:92-112 | one child of the second pass computes ReinsertStep |
| NavReplay.OnePass | src/co/multiply/pathling/Nav.java:114-125 | the single-pass loop computes ValPass |
| NavReplay.ValChild | src/co/multiply/pathling/Nav.java:117-123 | one child of the single pass computes ValStep |
| NavReplay.MapPersistentApply | src/co/multiply/pathling/Nav.java:141-199 | MapPersistent.applyUpdates computes Replay |
| NavReplay.MapStructApply | src/co/multiply/pathling/Nav.java:208-225 | MapStruct.applyUpdates computes Replay |
| NavReplay.ReplayElement | src/co/multiply/pathling/Nav.java:242 | replaying child i's nav on its element yields outcome i of Outcomes, with the rest of the outcomes following from the new replacer state |
| NavReplay.UpdatePositions | src/co/multiply/pathling/Nav.java:240-249 | the update loop leaves a list and ascending removal indices; dropping the removed ones gives the positional rebuild of Outcomes |
| NavReplay.UpdatePosition | src/co/multiply/pathling/Nav.java:241-248 | one position: a REMOVE outcome appends its index to the removals, any other outcome is written at the index |
| NavReplay.VecEditApply | src/co/multiply/pathling/Nav.java:233-255 | VecEdit.applyUpdates computes Replay |
| NavReplay.RemoveIndices | src/co/multiply/pathling/Nav.java:491-536 | no indices: the vector with the metadata attached; otherwise a persistent vector of the unlisted elements, with the metadata attached |
| NavReplay.AdoptRuns | src/co/multiply/pathling/Nav.java:500-516 | the array-adoption branch collects exactly the unlisted elements, in order |
| NavReplay.FillRun | src/co/multiply/pathling/Nav.java:507-509 | copying a run into the array extends its filled prefix by that run and moves the fill position past it |
| NavReplay.ConjRuns | src/co/multiply/pathling/Nav.java:517-533 | the transient branch collects exactly the unlisted elements, in order |
| NavReplay.CopyRun | src/co/multiply/pathling/Nav.java:523-525 | copying elements lo..hi appends exactly that slice |
| NavReplay.VecPersistentApply | src/co/multiply/pathling/Nav.java:264-302 | VecPersistent.applyUpdates computes Replay |
| NavReplay.CopyPositions | src/co/multiply/pathling/Nav.java:268-294 | the copy loop builds the positional rebuild of Outcomes and leaves the replacer where Outcomes does |
| NavReplay.CopyPosition | src/co/multiply/pathling/Nav.java:274-288 | one position: the unchanged elements since the last position, then the outcome unless it is REMOVE |
| NavReplay.CopyTail | src/co/multiply/pathling/Nav.java:291-294 | copying the remaining elements completes the positional rebuild |
| NavReplay.SeqNavApply | src/co/multiply/pathling/Nav.java:311-366 | SeqNav.applyUpdates computes Replay |
| NavReplay.FilterRemovals | src/co/multiply/pathling/Nav.java:340-354 | the filter keeps exactly the elements whose index is not a removal, in order |
| NavReplay.ConsReversed | src/co/multiply/pathling/Nav.java:356-360 | consing the elements from last to first gives a list in the original order |
| NavReplay.SetEditApply | src/co/multiply/pathling/Nav.java:374-397 | SetEdit.applyUpdates computes Replay |
| NavReplay.SetPasses | src/co/multiply/pathling/Nav.java:380-391 | the two set loops compute ConjAll of DisjAll over the outcomes, and leave the replacer where Outcomes does |
| NavReplay.DisjMembers | src/co/multiply/pathling/Nav.java:381-383 | the disjoin loop computes DisjAll |
| NavReplay.ConjMember | src/co/multiply/pathling/Nav.java:385-390 | one member: replay it and conj the outcome unless it is REMOVE |
| NavReplay.SetPersistentApply | src/co/multiply/pathling/Nav.java:405-429 | SetPersistent.applyUpdates computes Replay |
| ScanSpec.Children | src/co/multiply/pathling/ScannerMatches.java:42-69 | a scan descends into the values of a map (never its keys), the elements of a vector, the members of a set and the items of a list, in order; each is smaller than its parent |
| ScanSpec.EntryNav | src/co/multiply/pathling/TransformKeys.java:65-81 | at most one child per entry: KeyVal when value subtree and key both matched, Val for the value only, Key for the key only |
| ScanSpec.PosNav | src/co/multiply/pathling/Transform.java:152-157 | at most one child per element |
| ScanSpec.MemNav | src/co/multiply/pathling/Transform.java:193-199 | at most one child per member |
| ScanLemmas.NavFits | src/co/multiply/pathling/Transform.java:23-28 | the nav built from a well-formed value fits it: recorded keys are in the map, indices are ascending and in range, recorded members are members, recursively, so applyUpdates on the same value is defined |
| ScanLemmas.NavCalls | src/co/multiply/pathling/ListReplacer.java:12-14 | the nav is absent exactly when the scan found no match, and its replay makes exactly as many replace calls as there are matches |
| ScanLemmas.StructMapKeysDiffer | src/co/multiply/pathling/ScannerMatchesKeys.java:42-52 | for every struct map and every entry whose key matches, the key-testing scan reports that key, while the key-testing nav of the map is a struct-map nav whose children are all Val children, so no key is replayed |
| ScanLemmas.StructMapKeysDifferExample | src/co/multiply/pathling/TransformKeys.java:56-82 | the entry 1 -> 2 of a struct map, with 1 matching: the key-testing matches are [1] and the key-testing nav is absent, so the transform leaves the map alone |
| ScannerMatches.MatchesWhen | src/co/multiply/pathling/ScannerMatches.java:24-28 | nil exactly when nothing matched, otherwise the matches in scan order; with keys set, the same for ScannerMatchesKeys.matchesWhen (an identical body), map keys included |
| ScannerMatches.ScanWhen | src/co/multiply/pathling/ScannerMatches.java:30-40 | appends exactly the matches of obj to the buffer |
| ScannerMatches.ScanTest | src/co/multiply/pathling/ScannerMatches.java:86-90 | appends x exactly when it matches |
| ScannerMatches.ScanValues | src/co/multiply/pathling/ScannerMatches.java:42-46 | appends the matches of the map's values, in order |
| ScannerMatches.ScanEntries | src/co/multiply/pathling/ScannerMatchesKeys.java:43-52 | appends, entry by entry, the matches of the value and then the key when it matches |
| ScannerMatches.ScanEntry | src/co/multiply/pathling/ScannerMatchesKeys.java:44-51 | one entry: the value's matches, then the key when it matches |
| ScannerMatches.ScanChild | src/co/multiply/pathling/ScannerMatches.java:45 | one child's matches, the enclosing walk continuing after them |
| ScannerMatches.ScanElements | src/co/multiply/pathling/ScannerMatches.java:52-56 | appends the matches of the elements, in order |
| ScannerMatches.ScanMembers | src/co/multiply/pathling/ScannerMatches.java:62-65 | appends the matches of the members, in order |
| ScannerMatches.ScanSeq | src/co/multiply/pathling/ScannerMatches.java:76-80 | the cursor walk appends the matches of the items, in order |
| Buffers.MatchBuffer.constructor | src/co/multiply/pathling/ScannerMatches.java:25 | the match list starts empty |
| Buffers.MatchBuffer.Add | src/co/multiply/pathling/ScannerMatches.java:48 | add appends exactly one value |
| ScannerMatchesNav.PathWhen | src/co/multiply/pathling/ScannerMatchesNav.java:25-40 | appends exactly the matches of obj and returns the nav NavOf records, absent when nothing matched |
| ScannerMatchesNav.PathSelf | src/co/multiply/pathling/ScannerMatchesNav.java:65-66 | the composite's own test: appends it exactly when it matches and reports the result |
| ScannerMatchesNav.PathScalar | src/co/multiply/pathling/ScannerMatchesNav.java:301-307 | a matching scalar is appended and yields Scalar; otherwise nothing and no nav |
| ScannerMatchesNav.PathEntries | src/co/multiply/pathling/ScannerMatchesNav.java:53-63 | appends the matches of the values and records a Val child for each value whose subtree matched |
| ScannerMatchesNav.PathEntry | src/co/multiply/pathling/ScannerMatchesNav.java:54-62 | one entry: the value's matches and its Val child, if any |
| ScannerMatchesNav.PathElements | src/co/multiply/pathling/ScannerMatchesNav.java:166-176 | appends the matches of the elements and records a Pos child, with its index, for each element whose subtree matched |
| ScannerMatchesNav.PathPosition | src/co/multiply/pathling/ScannerMatchesNav.java:170-175 | one element: its matches and its Pos child, if any |
| ScannerMatchesNav.PathMembers | src/co/multiply/pathling/ScannerMatchesNav.java:220-230 | appends the matches of the members and records a Mem child for each member whose subtree matched |
| ScannerMatchesNav.PathMember | src/co/multiply/pathling/ScannerMatchesNav.java:224-229 | one member: its matches and its Mem child, if any |
| ScannerMatchesNav.PathSeq | src/co/multiply/pathling/ScannerMatchesNav.java:270-295 | a non-empty list: the items' matches, then the list's own test, and a SeqNav carrying the list's length |
| ScannerMatchesNav.PathItems | src/co/multiply/pathling/ScannerMatchesNav.java:273-286 | the cursor walk: the items' matches and Pos children, with the index ending at the length |
| ScannerMatchesXf.Feed | src/co/multiply/pathling/ScannerMatchesXf.java:44-49 | feeding values to the reducing function never shrinks the list, and once reduced was signalled nothing changes |
| ScannerMatchesXf.FeedAppend | src/co/multiply/pathling/ScannerMatchesXf.java:73-82 | feeding a then b is feeding a and then b from where a stopped, so the scan may stop inside any subtree |
| ScannerMatchesXf.Reducer.constructor | src/co/multiply/pathling/ScannerMatchesXf.java:26-42 | the list starts empty and the transducer at its initial state |
| ScannerMatchesXf.Reducer.AddMatch | src/co/multiply/pathling/ScannerMatchesXf.java:44-49 | one match through the reducing function: new transducer state, the values it emits appended, and whether it returned reduced |
| ScannerMatchesXf.Reducer.Complete | src/co/multiply/pathling/ScannerMatchesXf.java:52 | the completing call appends what the transducer flushes |
| ScannerMatchesXf.MatchesWhen | src/co/multiply/pathling/ScannerMatchesXf.java:25-55 | the matches fed through the transducer up to the first reduced, then completed; nil when the list is empty |
| ScannerMatchesXf.ScanWhen | src/co/multiply/pathling/ScannerMatchesXf.java:61-71 | the reducer ends as feeding obj's matches leaves it, and true is returned exactly when reduced was signalled |
| ScannerMatchesXf.ScanTest | src/co/multiply/pathling/ScannerMatchesXf.java:120-125 | a match is fed to addMatch; no match changes nothing |
| ScannerMatchesXf.ScanChildren | src/co/multiply/pathling/ScannerMatchesXf.java:73-118 | the child loops feed the children's matches and stop at the first child that signals reduced |
| ScannerMatchesXf.ScanChild | src/co/multiply/pathling/ScannerMatchesXf.java:76 | one child's matches, the rest of the feed continuing from the reducer it leaves |
| ScannerMatchesXf.IdentityIsPlain | src/co/multiply/pathling/ScannerMatchesXf.java:42-54 | with the identity transducer the result is exactly that of ScannerMatches |
| ScannerMatchesXf.TakeFirst | src/co/multiply/pathling/ScannerMatchesXf.java:76-79 | with (take n) the result is the first n matches (nil when there are none or n is 0) |
| Transform.NavWhen | src/co/multiply/pathling/Transform.java:35-50 | returns the nav NavOf records, absent exactly when nothing matched; with keys set, the same for the navWhen of TransformKeys (an identical dispatch) |
| Transform.NavEntries | src/co/multiply/pathling/Transform.java:56-69 | a Val child for each value whose subtree matched, in iteration order |
| Transform.NavEntry | src/co/multiply/pathling/Transform.java:59-68 | one entry's Val child, if any |
| Transform.NavKeyedEntries | src/co/multiply/pathling/TransformKeys.java:56-82 | the children EntryNavs records with keys included, and hasKeyTransforms exactly when some key matched |
| Transform.NavKeyedEntry | src/co/multiply/pathling/TransformKeys.java:60-81 | one entry: value navigated first, then the predicate applied to the key; a KeyVal, Val or Key child, and hasKeyTransforms set when the key matched |
| Transform.NavElements | src/co/multiply/pathling/Transform.java:148-158 | a Pos child, with its index, for each element whose subtree matched |
| Transform.NavPosition | src/co/multiply/pathling/Transform.java:152-157 | one element's Pos child, if any |
| Transform.NavMembers | src/co/multiply/pathling/Transform.java:190-199 | a Mem child for each member whose subtree matched |
| Transform.NavMember | src/co/multiply/pathling/Transform.java:193-199 | one member's Mem child, if any |
| Transform.NavSeq | src/co/multiply/pathling/Transform.java:230-252 | a non-empty list's nav, a SeqNav carrying its length |
| Transform.NavItems | src/co/multiply/pathling/Transform.java:233-245 | the cursor walk records the Pos children and counts the items |
| Transform.TransformWhen | src/co/multiply/pathling/Transform.java:23-29 | obj unchanged when nothing matched, otherwise the replay of its nav with tf as a function replacer; with keys set, the same for TransformKeys.transformWhen |
| ReplayLaws.DropAtLength | src/co/multiply/pathling/Nav.java:497 | removing the listed indices leaves count minus removals elements |
| ReplayLaws.RemoveIndicesDropsListed | src/co/multiply/pathling/Nav.java:486-491 | with ascending unique indices, the result is the vector with exactly those positions dropped (highest first), count minus removals long |
| ReplayLaws.EchoReplay | src/co/multiply/pathling/Nav.java:34-44 | replaying the nav of a value without sets or sub-vectors, with a source that answers each match with itself, rebuilds the value; for a list source the value also holds no empty list |
| ReplayLaws.ListReplayOfMatches | src/co/multiply/pathling/ListReplacer.java:12-14 | a list replacer holding the matches themselves, in discovery order, rebuilds the value and ends exactly at the end of the list, so terminals are replayed in discovery order |
| ReplayLaws.TransformIdentity | src/co/multiply/pathling/Transform.java:23-29 | transforming with the identity function returns the value itself, for every value without sets or sub-vectors, empty lists included |

## Left out

- Iteration order is not modelled for any map or set. Each one is a sequence in the model's own order, and each scan and replay uses that order. That covers four things.
  - Hashing and the iteration order of hash maps and hash sets.
  - The comparator order of sorted maps and sorted sets. `Values.Assoc` and `Values.Conj` append a new key or member at the end, where the persistent `assoc` and `cons` of `Nav.java:163-175` and `Nav.java:413-418` would place it in comparator order.
  - The slot reuse of a transient array map's remove. `Values.Dissoc` keeps the other entries in their order.
  - So the model promises the contents of each map view (`ToMap`) and member set, not their order. No proved property depends on that order.
- Transients, array adoption and `PersistentVector.create` are modelled only by the values they produce. Speed and allocation are not modelled.
- Metadata is an opaque tag, compared only for equality.
- `RT.booleanCast` truthiness is not modelled. The predicate returns a Dafny `bool`.
- Exceptions and stack depth are not modelled, nor are casts that fail on data not built by the matching builder. Replay requires `Fits`, which the builders guarantee (`ScanLemmas.NavFits`).
- The replacement function and the transducer are pure Dafny functions. Side effects and exceptions in caller code are not modelled, and neither is a transducer that keeps calling after reduced.
- Only two concrete transducers are given, the identity and `(take n)`. The general transducer is an arbitrary state machine.
- A list is modelled as its items. The empty `SeqV` stands for a sequential collection whose `RT.seq` is null: `Transform.java:47` passes that null to `navSeq`, which scans it as the scalar nil (`Transform.java:231`). Clojure's empty list `()` is an `ISeq` that is not null, so `navSeq` would walk it once with nil as its first item and then apply the predicate to the list itself; that is not modelled. For that list, a match of nil would record `SeqNav` with length 1 and position 0, and its rebuild would read element 0 of an empty list (`Nav.java:314-331`); that case is not modelled either.
- Replacers.Replacer.Replace: a list replacer requires its list not to be exhausted. Running past the end throws in the source; the model excludes it with a precondition. `ScanLemmas.NavCalls` shows that a list of one replacement per match is exactly long enough.
- ReplayLaws.EchoReplay: the identity law uses exact equality of the modelled sequences, so it excludes four cases.
  - Sets: the disjoin-then-conj rebuild changes member order. The result is equal as a Clojure set but not as a sequence.
  - Sub-vectors: they are rebuilt as persistent vectors. The result is equal as a Clojure vector but has a different kind in the model.
  - Empty lists, for a list source only: they match as nil, so a list replacer that echoes the matches hands nil back. The identity function hands the list itself back, so they are allowed there.
  - Key testing: the two-pass rebuild reorders entries, and a key is replayed before its value although it is discovered after it.
  - Equality up to Clojure's order-insensitive and kind-insensitive equality is not modelled.
- ReplayLaws.TransformIdentity: stated without sets or sub-vectors, for the reasons given for EchoReplay. Empty lists are allowed, because the identity function hands the list itself back.
- ReplayLaws.ListReplayOfMatches: that a list replacer over arbitrary replacements agrees with the function replacer that would produce them is not proved. It only holds when no matched composite contains another match, because a function replacer sees the rebuilt composite.
- No set-level identity lemma is given. Replaying a set nav with echoed matches is not proved to keep the member set.
- `Transform.java:28` passes the transform function, a plain function object, to `applyUpdates`, whose second parameter is a `Replacer` (`Nav.java:44`, with `Replacer` a closed interface, `Replacer.java:13`). As written that call does not type-check. The model, in `Transform.TransformWhen`, wraps the function in a function replacer, as `TransformKeys.java:28` does.
- The Clojure-side callers of these classes (update-paths and the public API) are not part of this model.
