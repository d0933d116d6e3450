# Verification models of the IPC web interface

This project models the parts of the repository that carry its state, branching and arithmetic, and
proves what they keep. `dafny verify dfyconfig.toml` checks all of it.

Three groups of files model JavaScript that ships with the web interface:

- `ToFixed` is the six-limb arithmetic inside `Number.prototype.toFixed`; the text it prints is the nearest
  decimal, for every mantissa, exponent and number of digits.
- `MapData`, `MapLinks` and `OrderedMap` are the insertion-ordered Map and Set. `MapData` is the list of
  section 24.1 of ECMA-262, `MapLinks` the linked structure on values, and `OrderedMap` the objects that
  mutate it. Open iterators and `forEach` callbacks that change the map are covered.
- `CorePromise` and `PromiseAll` are the settling of promises through chains of thenables, and `Promise.all`.
- `ZoneLedger` and `ZoneTasks` are the tasks of Zone.js: the ledger is a state machine with a stack of open
  calls, whose steps are the beginnings and ends of calls, so that user code may do anything in between;
  `ZoneTasks` has the objects with their fields and shows that they follow the ledger. `Microtasks` is the
  microtask queue.
- `ModuleGraph` and `ModuleLoader` are the webpack runtime: modules loaded on demand in graphs with cycles,
  and entries that wait for chunks.
- `JsArray` is `splice` and `copyWithin` on arrays with holes, `Utf16` is strings as code units.

Two groups model the repository's own C++:

- `CheckRules`, `CheckVerdicts`, `CheckPass`, `CheckTables`, `CheckConverges` and `ConfigChecker` are the configuration checker
  of dbtool in automatic mode; `Schema` prints table schemas and reads them back.
- `OsdViews`, `OsdColumns`, `OsdShared`, `OsdPartial` and `OsdHandlers` are the OSD table as seen through two pairs of
  handlers, `JsonDiff`, `JsonPatch` and `Prune` the step that erases unchanged data before a write, `OsdPost` both
  together, `OsdRuns` whole runs from the tables at the start, and `Roi` the flag derived for each video stream.

`Wrappers`, `Indices` and `Decimals` have what several of them share.

User callbacks, thenables and module bodies appear as finite scripts or as arbitrary sequences of events.
Database tables are sequences of rows. Methods with loops and fields stand where the program has them; each is
proved against a function or predicate of its own, about which the main results are then stated.

## What the code does not keep

Some expectations fail for particular inputs. Each is stated with the exact condition under which the code is right,
and with an input that shows the failure where the condition does not name one.

- A map that is asked for a frozen object searches with `==` and may find a string key
  (`LooseLookupGoesWrong`, `LookupFaithful`).
- A callback that cancels its own running task and schedules it again breaks the bookkeeping when the run ends: the
  zone frame of the run is never left, and a one-shot task also loses its array and its count
  (`ReschedulingWhileRunningBreaks`; exactly when in `EndRunKeeps`). So does a hook that forwards a request for a task
  that is counted already (`ForwardingCountedBreaks`; exactly when in `EnlistKeeps`).
- The checker can accept a row that breaks a rule when another rule, active only on the way, undoes the repair
  (`UndoneOnTheWay`; exactly when in `RowFixpoint`); crossing limits have no stable repair (`RangeStable`); an option
  spelled "delete" removes rows (`DeleteOption`, `DeletesNothing`); rules that chase each other end in the cycle-limit
  error (`ChasingCycles`; exactly when in `Js2Db`).
- A printed schema is misread when a name or setting has a comma, a column name a space, or the table name an
  opening parenthesis (`Schema.RoundTrip`).
- The overlays take the attributes of the first row for those of all ten (`GetPut`, `PostIsPut`). That is right over
  every run of writes in which no section but the attributes names an attribute column (`RunKeepsShared`). A channel name
  posted with a font size is accepted and makes the rows differ (`StrayUnshares`; exactly when in `ChannelShares`): then
  writing back what is shown changes the table, and posting it is not the same as writing it (`StrayPost`).
- A text with an id of eight or more is written outside the overlays (`TextTouches`).
- Enabling values of both signs make an ROI flag deny that a region is enabled (`SignsCancel`, `RightUnlessCancelled`).
- The answer to an ROI request carries the flag from before the request (`Roi.RoiTable.Handle`).
- Surrogates next to each other merge when a string is built from code points (`CodesEncoded`).

## Model

| member | source | states |
|---|---|---|
| ToFixed.ProductIsExact | www/polyfills-es5.b0ed0eb7d025d8dc4f1a.js:6366-6368 | Multiplying the limbs loses no carry: limbs and last carry together are the exact product plus the carry in, for limbs of any number. |
| ToFixed.ProductModulo | www/polyfills-es5.b0ed0eb7d025d8dc4f1a.js:6366-6368 | What six limbs keep is the product modulo their capacity, and the exact product when it fits. |
| ToFixed.Multiply | www/polyfills-es5.b0ed0eb7d025d8dc4f1a.js:6366-6368 | The in-place multiplication: no intermediate exceeds 2^53 - 1, every limb stays below 10^7, and the value is exact when it fits. |
| ToFixed.Divide | www/polyfills-es5.b0ed0eb7d025d8dc4f1a.js:6369-6371 | The in-place division, most significant limb first, yields the floor of the quotient; every intermediate stays safe. |
| ToFixed.Print | www/polyfills-es5.b0ed0eb7d025d8dc4f1a.js:6372-6379 | The limbs print as the decimal numeral of their value: zeros inside padded, leading ones suppressed. |
| ToFixed.Fits | www/polyfills-es5.b0ed0eb7d025d8dc4f1a.js:6389-6391 | A mantissa up to 2^53 - 1 times 10^20, plus one, never overflows the six limbs. |
| ToFixed.RoundByHalving | www/polyfills-es5.b0ed0eb7d025d8dc4f1a.js:6390-6391 | Dividing by 2^(e-1), adding one and halving is dividing by 2^e and rounding halves upwards. |
| ToFixed.RoundedIsNearest | www/polyfills-es5.b0ed0eb7d025d8dc4f1a.js:6388-6391 | The integer computed is the one section 21.1.3.3 of ECMA-262 asks for: nearest to the scaled number, the larger of two equally near ones, against every competing integer. |
| ToFixed.RoundedText | www/polyfills-es5.b0ed0eb7d025d8dc4f1a.js:6388-6391 | Scaling by tens, dividing by twos in chunks of 23 bits, rounding and printing gives the numeral of the rounded scaled number, for every mantissa and exponent. |
| ToFixed.IntegralText | www/polyfills-es5.b0ed0eb7d025d8dc4f1a.js:6392 | An integral receiver prints exactly, followed by its fraction zeros. |
| ToFixed.PlacePoint | www/polyfills-es5.b0ed0eb7d025d8dc4f1a.js:6393 | The decimal point goes in the given number of digits from the end, with zeros in front of a short text. |
| ToFixed.FixedReads | www/polyfills-es5.b0ed0eb7d025d8dc4f1a.js:6393 | Read without its point the text is the rounded scaled number; the point stands where it should, after at least one digit, and only a zero integer part begins with 0. |
| ToFixed.TinyRoundsToZero | www/polyfills-es5.b0ed0eb7d025d8dc4f1a.js:6383 | Numbers that the code skips because they do not exceed 10^-21 round to zero anyway. |
| ToFixed.ScaledClosest | www/polyfills-es5.b0ed0eb7d025d8dc4f1a.js:6384-6392 | The integer that is printed is the closest one to the scaled number, the larger of two equally close, and the scaled number itself for integral receivers. |
| ToFixed.ToFixed | www/polyfills-es5.b0ed0eb7d025d8dc4f1a.js:6360-6394 | The whole method: a range error exactly outside 0 to 20 digits, NaN and huge numbers by their texts; for a finite number a minus exactly below zero, and a numeral with as many fraction digits as asked for of the integer closest to the scaled number, the larger of two. |
| MapData.ApplyKeepsDistinct | www/polyfills-es5.b0ed0eb7d025d8dc4f1a.js:2918-2951 | No sequence of changes gives two records the same key, even when frozen objects are looked up loosely. |
| MapData.ApplyLeaves | www/polyfills-es5.b0ed0eb7d025d8dc4f1a.js:2918-2951 | After a set the first record of the key, or a new last one, has the value; after a deletion that record is gone, and the key with it unless another was taken for it; after clearing nothing is left; every other slot is as before. |
| MapData.ApplyAllInOrder | www/polyfills-es5.b0ed0eb7d025d8dc4f1a.js:2918-2951 | Changes made one after the other compose in that order. |
| MapData.NextInOrder | www/polyfills-es5.b0ed0eb7d025d8dc4f1a.js:2952-2955 | The callbacks of a traversal run their scripts in order, one each. |
| MapData.LookupFaithful | www/polyfills-es5.b0ed0eb7d025d8dc4f1a.js:2930-2936 | A lookup finds what section 24.1 of ECMA-262 prescribes if and only if no loosely equal primitive key precedes the key itself. |
| MapData.UnpinnedFaithful | www/polyfills-es5.b0ed0eb7d025d8dc4f1a.js:997-1005 | For every key but a frozen object that was never marked, lookups, insertions and deletions are those of the standard. |
| MapData.LooseLookupGoesWrong | www/polyfills-es5.b0ed0eb7d025d8dc4f1a.js:2934-2935 | A map in which a frozen object is found although only the string it coerces to is a key. |
| MapData.VisitsIncrease | www/polyfills-es5.b0ed0eb7d025d8dc4f1a.js:2952-2955 | A traversal visits records at increasing positions, so in insertion order and never twice, whatever the callbacks do. |
| MapData.SurvivorsVisited | www/polyfills-es5.b0ed0eb7d025d8dc4f1a.js:2952-2955 | A record ahead of the cursor that is there at the end of a traversal was visited, also when it was added on the way. |
| MapData.RemovedNeverVisited | www/polyfills-es5.b0ed0eb7d025d8dc4f1a.js:2952-2955 | A record removed before the cursor reaches it is never visited. |
| MapLinks.IndexInjective | www/polyfills-es5.b0ed0eb7d025d8dc4f1a.js:997-1005 | Two keys share an index entry only if they are the same key. |
| MapLinks.FindIndexed | www/polyfills-es5.b0ed0eb7d025d8dc4f1a.js:2930-2933 | In a sound structure the hash index finds exactly the record the list search would find. |
| MapLinks.GrownSound | www/polyfills-es5.b0ed0eb7d025d8dc4f1a.js:994-1014 | A sound structure stays sound when objects are marked or frozen, among them its own keys. |
| MapLinks.AppendSound | www/polyfills-es5.b0ed0eb7d025d8dc4f1a.js:2921-2928 | Appending an entry keeps links, ends, index and size sound. |
| MapLinks.UnlinkSound | www/polyfills-es5.b0ed0eb7d025d8dc4f1a.js:2946-2948 | Unlinking an entry keeps links, ends, index and size sound, while the removed entry keeps its own pointers. |
| MapLinks.ClearingEnds | www/polyfills-es5.b0ed0eb7d025d8dc4f1a.js:2939-2940 | Removing entries one by one ends in an empty index and an empty, sound structure. |
| MapLinks.WalkBack | www/polyfills-es5.b0ed0eb7d025d8dc4f1a.js:2990 | The `previous` of a removed entry the cursor stands on is an earlier entry with nothing live in between. |
| MapLinks.BehindStable | www/polyfills-es5.b0ed0eb7d025d8dc4f1a.js:2989-2990 | Whatever happens to the map between two steps, the cursor keeps its place. |
| MapLinks.StepOn | www/polyfills-es5.b0ed0eb7d025d8dc4f1a.js:2991 | The entry after the nearest live predecessor, or the first one, is the next record of the abstract list. |
| OrderedMap.OrderedMap.Undisturbed | www/polyfills-es5.b0ed0eb7d025d8dc4f1a.js:994-1014 | A map stays valid, with the same contents, while another map marks objects in the shared registry or the environment freezes some. |
| OrderedMap.OrderedMap.Find | www/polyfills-es5.b0ed0eb7d025d8dc4f1a.js:2930-2936 | `getEntry` finds the entry of the first matching record, by index or by search. |
| OrderedMap.OrderedMap.Set | www/polyfills-es5.b0ed0eb7d025d8dc4f1a.js:2918-2929 | `set` and `add` overwrite the value of the record found or append one, leave every other slot as it was, and refine the abstract insertion on the linked entries themselves. |
| OrderedMap.OrderedMap.Delete | www/polyfills-es5.b0ed0eb7d025d8dc4f1a.js:2942-2951 | `delete` empties the slot of the record found, and no other, refines the abstract deletion, and tells whether there was a record. |
| OrderedMap.OrderedMap.Clear | www/polyfills-es5.b0ed0eb7d025d8dc4f1a.js:2938-2941 | `clear` refines emptying the list while the old entries stay linked backwards for open cursors. |
| OrderedMap.OrderedMap.Has | www/polyfills-es5.b0ed0eb7d025d8dc4f1a.js:2956-2958 | `has` is true exactly when a record matches. |
| OrderedMap.OrderedMap.Get | www/polyfills-es5.b0ed0eb7d025d8dc4f1a.js:2960-2963 | `get` returns the value of the first matching record, if there is one. |
| OrderedMap.OrderedMap.Size | www/polyfills-es5.b0ed0eb7d025d8dc4f1a.js:2971-2974 | `size` is the number of records. |
| OrderedMap.OrderedMap.Advance | www/polyfills-es5.b0ed0eb7d025d8dc4f1a.js:2989-2991 | One step of a cursor over linked entries returns the next record of the abstract list. |
| OrderedMap.OrderedMap.ForEach | www/polyfills-es5.b0ed0eb7d025d8dc4f1a.js:2952-2955 | `forEach` under any scripts of set, delete and clear makes exactly the visits, and leaves exactly the contents, of the abstract traversal. |
| OrderedMap.MapIterator.Next | www/polyfills-es5.b0ed0eb7d025d8dc4f1a.js:2989-3003 | An iterator returns the next record of the list, and nothing for ever once there is none. |
| OrderedMap.MapIterator.Undisturbed | www/polyfills-es5.b0ed0eb7d025d8dc4f1a.js:2981-2990 | An open iterator stays valid at its place across any change of its map. |
| CorePromise.SettledForever | www/polyfills-es5.b0ed0eb7d025d8dc4f1a.js:752-776 | Once a promise is settled, no further call or job changes its state or its value. |
| CorePromise.FirstCallWins | www/polyfills-es5.b0ed0eb7d025d8dc4f1a.js:752-776 | Of all calls on the functions of one token, anywhere in the chain of thenables, only the first after its creation matters: any later one can be dropped from the history. |
| CorePromise.SpentIgnored | www/polyfills-es5.b0ed0eb7d025d8dc4f1a.js:755-757 | A call on a token that has nothing left to decide can be dropped, whatever follows. |
| CorePromise.IgnoredLater | www/polyfills-es5.b0ed0eb7d025d8dc4f1a.js:753-757 | Calls on the functions of an earlier link of the chain change nothing any more. |
| CorePromise.Promise.OneLiveToken | www/polyfills-es5.b0ed0eb7d025d8dc4f1a.js:755-769 | While the promise is pending exactly one token is unconsumed or one job is about to create one; afterwards none is. |
| CorePromise.Promise.HandedOut | www/polyfills-es5.b0ed0eb7d025d8dc4f1a.js:752-757 | While the promise is pending the flags of the tokens handed out are set exactly where the history has spent them. |
| CorePromise.Promise.Resolve | www/polyfills-es5.b0ed0eb7d025d8dc4f1a.js:755-776 | The first call on the live token fulfils with a plain value, rejects with the error of a poisoned or self-referring one, or waits for a thenable; any other call changes nothing; the state stays what the whole history of calls demands. |
| CorePromise.Promise.Reject | www/polyfills-es5.b0ed0eb7d025d8dc4f1a.js:752-754 | The first call on the live token rejects with its reason; any other call changes nothing; the state stays what the whole history of calls demands. |
| CorePromise.Promise.Then | www/polyfills-es5.b0ed0eb7d025d8dc4f1a.js:797-802 | A reaction is kept while the promise is pending and announced when it is settled, and sees the settled state and value. |
| CorePromise.Promise.RunJob | www/polyfills-es5.b0ed0eb7d025d8dc4f1a.js:703-723 | A job unwraps the thenable with a fresh token, or calls every reaction once, those registered on the way included, with the settled state and value. |
| PromiseAll.ResolvedMeans | www/polyfills-es5.b0ed0eb7d025d8dc4f1a.js:855-874 | The result is resolved if and only if everything was fulfilled at some point before which nothing rejected or threw; it has the first values of that point, in order. |
| PromiseAll.RejectedMeans | www/polyfills-es5.b0ed0eb7d025d8dc4f1a.js:855-874 | The result is rejected if and only if something rejects, or the loop throws, before everything is fulfilled. |
| PromiseAll.OutstandingDrops | www/polyfills-es5.b0ed0eb7d025d8dc4f1a.js:868-869 | The first fulfilment of an item, and only that, lowers the number of outstanding items by one. |
| PromiseAll.CompleteWhen | www/polyfills-es5.b0ed0eb7d025d8dc4f1a.js:861-871 | Every item has fulfilled exactly when nothing is outstanding, and then the array holds the values in input order. |
| PromiseAll.All.TakeItem | www/polyfills-es5.b0ed0eb7d025d8dc4f1a.js:865-868 | Taking an item keeps the counter at one more than the outstanding items during the loop. |
| PromiseAll.All.Fulfil | www/polyfills-es5.b0ed0eb7d025d8dc4f1a.js:868-869 | A fulfilment, repeated or not, before or after the end of the loop, keeps counter, array and outcome right. |
| PromiseAll.All.EndOfItems | www/polyfills-es5.b0ed0eb7d025d8dc4f1a.js:871 | The end of the loop counts down once more and resolves the result if nothing is outstanding. |
| PromiseAll.All.Throw | www/polyfills-es5.b0ed0eb7d025d8dc4f1a.js:873 | An exception out of the loop rejects the result unless it was decided before. |
| ZoneLedger.InitialInv | www/polyfills-es2015.5fc5fa6030ff0b97da32.js:188-197 | Before the first call the invariant holds with every count at zero. |
| ZoneLedger.BeginScheduleKeeps | www/polyfills-es2015.5fc5fa6030ff0b97da32.js:138-149 | Starting to schedule a task that is not scheduled keeps the invariant, also within a run of the same task. |
| ZoneLedger.EnlistKeeps | www/polyfills-es2015.5fc5fa6030ff0b97da32.js:210-212 | A delegate that enters itself into the array of a task keeps the invariant if and only if the task is not counted yet. |
| ZoneLedger.CancelRequestKeeps | www/polyfills-es2015.5fc5fa6030ff0b97da32.js:275-281 | Withdrawing a request keeps the invariant and drops the array. |
| ZoneLedger.EndScheduleKeeps | www/polyfills-es2015.5fc5fa6030ff0b97da32.js:154 | The end of scheduling counts the task on its array, unless the array was replaced in the meantime. |
| ZoneLedger.FailScheduleKeeps | www/polyfills-es2015.5fc5fa6030ff0b97da32.js:151-153 | A hook that throws leaves an uncounted task in the unknown state. |
| ZoneLedger.BeginRunKeeps | www/polyfills-es2015.5fc5fa6030ff0b97da32.js:117-126 | Starting a run of a scheduled or running task keeps the invariant, runs within runs of the same task included. |
| ZoneLedger.EndRunKeeps | www/polyfills-es2015.5fc5fa6030ff0b97da32.js:134-136 | The end of a run keeps the invariant if and only if the run ends well: its task is still running and is repeating or was moved by this run, or is neither scheduled nor known, or is scheduled again and repeating and was not moved by this run. |
| ZoneLedger.EndRunBreaks | www/polyfills-es2015.5fc5fa6030ff0b97da32.js:134-136 | A run that does not end well leaves its zone frame behind for a repeating task, and takes array and count from a one-shot task that stays scheduled or running. |
| ZoneLedger.EndCancelKeeps | www/polyfills-es2015.5fc5fa6030ff0b97da32.js:173 | A completed cancellation takes the task off the counts exactly once. |
| ZoneLedger.FailCancelKeeps | www/polyfills-es2015.5fc5fa6030ff0b97da32.js:170-172 | A cancellation that throws leaves the task unknown and still counted. |
| ZoneLedger.CountsConserved | www/polyfills-es2015.5fc5fa6030ff0b97da32.js:117-178 | Over every run of calls, with callbacks that cancel, throw, move or reschedule tasks as long as runs end well, each count equals the counted tasks whose arrays hold the delegate, with multiplicity; it is never negative; zone and current task are those of the open calls; between calls every task not unknown is counted exactly when it is scheduled. |
| ZoneLedger.MovedTask | www/polyfills-es2015.5fc5fa6030ff0b97da32.js:138-154 | A task that a hook cancels and schedules in another zone ends up counted once, on the delegates of the second call alone. |
| ZoneLedger.ReschedulingWhileRunningBreaks | www/polyfills-es2015.5fc5fa6030ff0b97da32.js:134-136 | From every initial state with one task, legal steps in a zone below the root lead to a callback that has cancelled and rescheduled its own task; the end of the run breaks the invariant: the zone frame stays, and a one-shot task ends up scheduled without array and count. |
| ZoneLedger.ForwardingCountedBreaks | www/polyfills-es2015.5fc5fa6030ff0b97da32.js:210-212 | From every initial state with one task, legal steps lead to a counted task; a request forwarded for it enlists a delegate that is then owed one more than its count. |
| ZoneLedger.BumpAdds | www/polyfills-es2015.5fc5fa6030ff0b97da32.js:175-178 | Updating the counts along an array changes each delegate by its multiplicity in it. |
| ZoneLedger.UnderMeans | www/polyfills-es2015.5fc5fa6030ff0b97da32.js:139-144 | A zone is under another exactly when a chain of parents leads there. |
| ZoneTasks.Runtime.IsUnder | www/polyfills-es2015.5fc5fa6030ff0b97da32.js:139-144 | The walk over parents finds another zone exactly when a chain of parents leads there. |
| ZoneTasks.Runtime.UpdateTaskCount | www/polyfills-es2015.5fc5fa6030ff0b97da32.js:175-178 | The loop over the array applies the update to every delegate and never finds a negative count. |
| ZoneTasks.Runtime.ScheduleBegins | www/polyfills-es2015.5fc5fa6030ff0b97da32.js:138-149 | Scheduling throws exactly for a task that is not unscheduled, or whose zone is a proper ancestor of the new one; otherwise the task is being scheduled there with a new empty array, and the objects follow the ledger. |
| ZoneTasks.Runtime.DelegateSchedules | www/polyfills-es2015.5fc5fa6030ff0b97da32.js:210-219 | A delegate with a hasTask hook enters itself into the array of the task, or throws when there is none; one without passes it on. The objects stay valid unless the task was already counted. |
| ZoneTasks.Runtime.ScheduleReturns | www/polyfills-es2015.5fc5fa6030ff0b97da32.js:154 | The objects follow the ledger when scheduling ends. |
| ZoneTasks.Runtime.CancelScheduleRequest | www/polyfills-es2015.5fc5fa6030ff0b97da32.js:275-281 | A request is withdrawn exactly while the task is being scheduled; then it is not scheduled and has no array, and the objects follow the ledger. |
| ZoneTasks.Runtime.RunBegins | www/polyfills-es2015.5fc5fa6030ff0b97da32.js:117-127 | A run starts exactly in the task's zone when it is scheduled or running; it is counted, becomes current and pushes its zone, and the objects follow the ledger; runs of unscheduled event and macro tasks are ignored. |
| ZoneTasks.Runtime.RunEnds | www/polyfills-es2015.5fc5fa6030ff0b97da32.js:134-136 | However a run ends the objects follow the ledger; it throws exactly for a task scheduled again in the run that moved it, and otherwise puts zone and current task back and leaves a repeating task scheduled, any other unscheduled with its runs forgotten; the objects stay valid if and only if the run ends well. |
| ZoneTasks.Runtime.CancelBegins | www/polyfills-es2015.5fc5fa6030ff0b97da32.js:165-167 | A cancellation starts exactly in the task's zone when it is scheduled or running; the objects follow the ledger. |
| ZoneTasks.Runtime.CancelReturns | www/polyfills-es2015.5fc5fa6030ff0b97da32.js:173 | A cancellation that completes leaves the task unscheduled, without array and with its runs forgotten; the objects follow the ledger. |
| Microtasks.DispatchedOnce | www/polyfills-es2015.5fc5fa6030ff0b97da32.js:310-326 | Every microtask that arises from a queue, directly or through others, is dispatched exactly once. |
| Microtasks.FrontFirst | www/polyfills-es2015.5fc5fa6030ff0b97da32.js:310-323 | What waits in front is dispatched in its order before anything that comes later. |
| Microtasks.BatchStep | www/polyfills-es2015.5fc5fa6030ff0b97da32.js:313-318 | Swapping batches out does not reorder: what a microtask schedules runs behind the rest of its batch. |
| Microtasks.Queue.ScheduleMicrotask | www/polyfills-es2015.5fc5fa6030ff0b97da32.js:301-308 | A drain is requested from the host exactly when a microtask joins an empty queue outside any invocation. |
| Microtasks.Queue.InvokeTask | www/polyfills-es2015.5fc5fa6030ff0b97da32.js:261-268 | An outermost invocation leaves the queue empty, everything dispatched first in, first out; a nested one leaves it to the outer. |
| Microtasks.Queue.Drain | www/polyfills-es2015.5fc5fa6030ff0b97da32.js:310-326 | A drain dispatches the whole queue in order, across batches, exceptions and drains nested in it, which do nothing; every error is reported once, in order; no wake-up is lost. |
| Microtasks.Queue.HostDrain | www/polyfills-es2015.5fc5fa6030ff0b97da32.js:301-308 | The drain the host was asked for empties the queue in order; on the way the host is asked again exactly for every microtask that joins an empty queue outside any invocation. |
| ModuleGraph.LoadsExactly | thirdparty/ipcweb-ng/runtime-es2015.js:66-87 | From a cache closed under requiring, requiring a root caches precisely what was there and what the root reaches, cycles included. |
| ModuleGraph.UncachedReaches | thirdparty/ipcweb-ng/runtime-es2015.js:57-63 | While the cache contains what its modules require, returning cached modules without a look at their bodies loads the same modules as following every body. |
| ModuleLoader.Runtime.Require | thirdparty/ipcweb-ng/runtime-es2015.js:66-87 | The recursive loader ends on every graph, runs no body twice, and caches the modules it ran, all of them reachable. |
| ModuleGraph.ProgressAfter | thirdparty/ipcweb-ng/runtime-es2015.js:3-51 | After any arrivals the list holds exactly the registered entries that are not ready, in order of registration, and exactly the ready ones have run, each once. |
| ModuleGraph.RunsWhenReady | thirdparty/ipcweb-ng/runtime-es2015.js:35-51 | An entry runs at the first callback at which it is registered and everything it needs is there. |
| ModuleGraph.OrderIndependent | thirdparty/ipcweb-ng/runtime-es2015.js:3-51 | Arrivals in any other order load the same chunks and run the same entries, each as often as registered. |
| ModuleGraph.ScanStep | thirdparty/ipcweb-ng/runtime-es2015.js:37-47 | Splicing a ready entry out and stepping the index back skips no entry of the scan. |
| ModuleLoader.Runtime.CheckDeferredModules | thirdparty/ipcweb-ng/runtime-es2015.js:35-51 | The spliced scan leaves exactly the entries that are not ready and runs the others in order, loading what they reach. |
| ModuleLoader.Runtime.ChunkArrives | thirdparty/ipcweb-ng/runtime-es2015.js:3-34 | A callback marks its chunks loaded, registers its entries and runs whatever is ready: one step of the abstract progress; it resolves exactly the promises collected. The cache grows by exactly what those entries reach through modules that were not cached, also when the chunk brings other bodies for cached ones. |
| ModuleLoader.Runtime.MarkLoaded | thirdparty/ipcweb-ng/runtime-es2015.js:11-17 | Chunks are flagged as loaded and the promises of those being loaded are collected, each once and in order. |
| ModuleLoader.PendingMeans | thirdparty/ipcweb-ng/runtime-es2015.js:11-17 | The promises collected are those of the loading chunks that the callback names, one for each first naming, in that order. |
| ModuleLoader.Runtime.constructor | thirdparty/ipcweb-ng/runtime-es2015.js:54-63 | At the start the chunk of the runtime itself is loaded, no module is cached, and nothing waits: where the results on arrivals begin. |
| JsArray.ArrayObject.Splice | www/polyfills-es5.b0ed0eb7d025d8dc4f1a.js:4114-4127 | In-place `splice`: without arguments nothing goes, without a count everything from the start on, otherwise as many as the count says and there are; the items stand in their place, the removed stretch is returned, holes are kept on both sides, and an excessive length is a type error that changes nothing. |
| JsArray.ArrayObject.ShiftDown | www/polyfills-es5.b0ed0eb7d025d8dc4f1a.js:4120-4122 | With fewer items than removals the tail moves down and its old end is deleted. |
| JsArray.ArrayObject.ShiftUp | www/polyfills-es5.b0ed0eb7d025d8dc4f1a.js:4123-4124 | With more items than removals the tail moves up, from its end. |
| JsArray.SpliceBack | www/polyfills-es5.b0ed0eb7d025d8dc4f1a.js:4114-4127 | Some splice of elements at the same place restores the array if and only if there was no hole among the removed ones. |
| JsArray.ArrayObject.CopyWithin | www/polyfills-es5.b0ed0eb7d025d8dc4f1a.js:1460-1470 | In-place `copyWithin`: every slot from the target on takes the old slot as far from the start, as long as that lies before the end; all other slots are as before, holes included, for every overlap and direction. |
| JsArray.ArrayObject.CopyBlock | www/polyfills-es5.b0ed0eb7d025d8dc4f1a.js:1467 | The direction is chosen so that no slot is read after it was overwritten. |
| Indices.NearestPosition | www/polyfills-es5.b0ed0eb7d025d8dc4f1a.js:1660-1663 | A relative index, counted from the end when negative, becomes the one position of the array, its end included, that is nearest to it. |
| Utf16.AcceptedIsCodePoint | www/polyfills-es5.b0ed0eb7d025d8dc4f1a.js:1120 | The guard lets through exactly the integers from 0 to 0x10FFFF, no NaN, infinity, fraction or negative number. |
| Utf16.FromCodePoint | www/polyfills-es5.b0ed0eb7d025d8dc4f1a.js:1118-1124 | `fromCodePoint` fails at the first argument that is no code point and otherwise returns the UTF-16 encoding of all of them. |
| Utf16.EncodedHalves | www/polyfills-es5.b0ed0eb7d025d8dc4f1a.js:1121 | A code point beyond 0xFFFF becomes a high and a low surrogate whose ten-bit halves are the high and the low part of its excess, section 2.1 of RFC 2781; any other stands for itself. |
| Utf16.CharIsEncodedCode | www/polyfills-es5.b0ed0eb7d025d8dc4f1a.js:2878-2889 | The piece at a position is the encoding of the code read there. |
| Utf16.PiecesJoin | www/polyfills-es5.b0ed0eb7d025d8dc4f1a.js:1962-1979 | The pieces of any string, put together, are the string. |
| Utf16.EncodedCodes | www/polyfills-es5.b0ed0eb7d025d8dc4f1a.js:2878-2889 | Every string, unpaired surrogates included, is the encoding of its codes. |
| Utf16.CodesEncoded | www/polyfills-es5.b0ed0eb7d025d8dc4f1a.js:1118-1124 | Iterating over a built string gives the code points back if and only if no high surrogate is followed by a low one among them. |
| Utf16.RoundTrip | www/polyfills-es5.b0ed0eb7d025d8dc4f1a.js:1118-1124 | For code points that are no surrogates, sections 2.1 and 2.2 of RFC 2781, the round trip always holds. |
| Utf16.StringIterator.Next | www/polyfills-es5.b0ed0eb7d025d8dc4f1a.js:1969-1978 | The iterator yields the remaining pieces one by one and then ends. |
| CheckRules.RangeKeeps | thirdparty/dbtool/js2db.cpp:591-612 | A range leaves a number alone exactly when it lies between the limits cut off to integers. |
| CheckRules.RangeStable | thirdparty/dbtool/js2db.cpp:591-634 | Repairs by limits are stable, for all values, if and only if the limits do not cross as integers. |
| CheckRules.KeepsIffMeets | thirdparty/dbtool/js2db.cpp:542-701 | `check4type` leaves a value alone exactly when the value meets the rule: an option, within the limits, or an option within the limits. |
| CheckRules.RepairStable | thirdparty/dbtool/js2db.cpp:542-701 | A repair applied to its own result says nothing or the same again, for every kind of rule whose bounds do not name the repaired column. |
| CheckRules.LimitsAvoid | thirdparty/dbtool/commondb.cpp:143-180 | Dynamic limits do not depend on a column they do not name. |
| CheckRules.MemberFinds | thirdparty/dbtool/js2db.cpp:566-581 | The scan over options of one kind finds exactly the members, reading a number as the empty text. |
| CheckRules.FilteredIs | thirdparty/dbtool/js2db.cpp:649-662 | The filtered options are exactly the options whose number lies within the limits. |
| CheckVerdicts.LimitsMean | thirdparty/dbtool/commondb.cpp:143-180 | Limits are the numbers of the two bounds: of a column its number times the rate of that bound, of none the default; what is wrong with the maximum is reported first. |
| CheckVerdicts.VerdictIs | thirdparty/dbtool/js2db.cpp:542-701 | Every verdict in terms of rule and row: the first option in place of one not listed; the limit crossed, cut off to an integer; of the options within the limits the last for a value above them and the first for any other; and which error when. |
| CheckPass.KeepsIffSatisfied | thirdparty/dbtool/js2db.cpp:338-363 | One step leaves a row alone exactly when the row satisfies it. |
| CheckPass.SelectedMeans | thirdparty/dbtool/js2db.cpp:364-485 | A group selects the rules, or the values, of all the cases that the selecting column names, as a number or as a text, and nothing else. |
| CheckPass.SelectedInOrder | thirdparty/dbtool/js2db.cpp:364-416 | Rules and cases given first are looked at first. |
| CheckPass.PassIsRun | thirdparty/dbtool/js2db.cpp:334-494 | A pass over a row is one run over the steps it takes, with selecting values read before the steps they select. |
| CheckPass.RowFixpoint | thirdparty/dbtool/js2db.cpp:334-494 | Unless limits cross, a row satisfies every rule active on it if and only if a pass returns it unchanged and no step of the pass concerns a column that an earlier step changed; that is, if and only if no step taken changes it. |
| CheckPass.DistinctNotUndone | thirdparty/dbtool/js2db.cpp:338-485 | Steps on distinct columns never undo one another, whatever the row. |
| CheckPass.IndependentDistinct | thirdparty/dbtool/js2db.cpp:338-485 | Independence of the rules, which can be read off the rules alone, ensures that no pass takes two steps on one column. |
| CheckTables.UndoneOnTheWay | thirdparty/dbtool/js2db.cpp:338-416 | A row that breaks a rule can be a fixpoint: a rule active only in mid-pass undoes the repair of another. It fails the condition of `RowFixpoint`. |
| CheckTables.RowsFixed | thirdparty/dbtool/js2db.cpp:334-494 | Rows come out unchanged as a list exactly when each does and none is empty. |
| CheckTables.AllFixpoint | thirdparty/dbtool/js2db.cpp:248-272 | A document is a fixpoint of `check_json` exactly when each table is, a table with no rows left counting as null. |
| CheckTables.ParaOf | thirdparty/dbtool/js2db.cpp:254-266 | The rules of a table are the first ones given under its name. |
| CheckTables.SatisfyingFixpoints | thirdparty/dbtool/js2db.cpp:248-494 | Unless limits cross, the documents whose rows satisfy every rule active on them are exactly the fixpoints in whose passes nothing is undone. |
| CheckTables.FixpointsSatisfy | thirdparty/dbtool/js2db.cpp:248-494 | With independent rules, which can be read off the rules alone, nothing is ever undone: the fixpoints are exactly the satisfying documents. |
| CheckTables.RunShape | thirdparty/dbtool/js2db.cpp:345-363 | Repairs keep the columns of a row, or empty it; they cannot empty it when no repair can be the text "delete". |
| CheckTables.DeleteOption | thirdparty/dbtool/js2db.cpp:348-352 | A list of texts removes a row if and only if its first option is the text "delete" and the text of the row is no option. |
| CheckTables.DeletesNothing | thirdparty/dbtool/js2db.cpp:348-352 | A list of texts removes no row with a text there, over all rows and columns, if and only if its first option is not the text "delete". |
| CheckTables.ShapeKept | thirdparty/dbtool/js2db.cpp:334-494 | When no list of options begins with "delete" and no limits leave "delete" at an end of a filtered list, a table keeps its rows, in order, and each row its columns. |
| CheckTables.ExcludesSpares | thirdparty/dbtool/js2db.cpp:649-662 | A filtered list without "delete", or one that a fixed limit keeps "delete" out of, never has it at an end. |
| CheckConverges.OnePassSettles | thirdparty/dbtool/js2db.cpp:334-494 | With independent rules whose selectors and bounds are not repaired, a second pass over a row changes nothing. |
| CheckConverges.FirstPassSettles | thirdparty/dbtool/js2db.cpp:248-272 | Under the same conditions the first pass over a document already gives a fixpoint. |
| ConfigChecker.NeverCycles | thirdparty/dbtool/js2db.cpp:21-40 | Under the same conditions the second pass over a document changes nothing, so that `Js2Db` never exits with the cycle-limit error. |
| ConfigChecker.Check4Type | thirdparty/dbtool/js2db.cpp:542-701 | The rule check with its scans, filter and error cases computes that verdict. |
| ConfigChecker.ApplyRules | thirdparty/dbtool/js2db.cpp:340-363 | The loop over column rules is the specified run, and a deleted row ends it. |
| ConfigChecker.ApplyGroup | thirdparty/dbtool/js2db.cpp:364-485 | Dynamic rules and alterations select their cases by the value read before the loop and run them in order. |
| ConfigChecker.CheckJsonFunc | thirdparty/dbtool/js2db.cpp:274-495 | `check_json_func`: every row through static, dynamic and disabled rules, emptied rows left out. |
| ConfigChecker.Document.CheckJson | thirdparty/dbtool/js2db.cpp:248-272 | `check_json`: every table through the first rules given for it, or nothing without the `SystemPara` table. |
| ConfigChecker.Document.Js2Db | thirdparty/dbtool/js2db.cpp:21-40 | A normal exit leaves a fixpoint reached after at most five passes; the cycle-limit error comes if and only if all five passes changed something, and never for settled rules; an exception is that of one of the first five passes. |
| ConfigChecker.ChasingCycles | thirdparty/dbtool/js2db.cpp:21-40 | Two rules that send a value to and fro change the document in every pass, whatever their number. |
| Schema.GetCreateSql | thirdparty/dbtool/js2db.cpp:233-246 | The column list is printed with commas exactly between columns. |
| Schema.CreateStatement | thirdparty/dbtool/js2db.cpp:86-89 | The statement is that column list behind the words and the name of the table. |
| Schema.SplitText | thirdparty/dbtool/db2js.cpp:114-122 | The two chasing positions split a text into its non-empty pieces between commas. |
| Schema.SplitSolid | thirdparty/dbtool/db2js.cpp:114-122 | Splitting loses nothing but commas: the pieces are not empty, free of commas, and together as long as the rest of the text. |
| Schema.SplitPrinted | thirdparty/dbtool/js2db.cpp:233-246 | Splitting the printed columns gives their texts back. |
| Schema.ReadColumns | thirdparty/dbtool/db2js.cpp:62-82 | The columns are read from what lies between the first opening and the last closing parenthesis; without the one it begins at the start, and without the other, or when that comes first, it goes on to the end. |
| Schema.ReadColumn | thirdparty/dbtool/db2js.cpp:73-79 | A text is cut at its first space into name and setting; without a space it is the name, and short of its last character the setting. |
| Schema.RoundTrip | thirdparty/dbtool/db2js.cpp:62-82 | A printed schema reads back as itself if and only if no column has a comma, no column name a space, and the table name no opening parenthesis. |
| Schema.ReadAgain | thirdparty/dbtool/db2js.cpp:62-82 | Whatever the statement, the columns read from it survive being printed and read again. |
| OsdViews.PutRows | src/osd_api.cpp:178-216 | A complete configuration is written row by row, and to the ten rows of the overlays only. |
| OsdColumns.GetShows | src/osd_api.cpp:13-88 | Every key of the overlays shows one column of one row, name by name: the rows 0 and 1, and for the texts 2 to 9. |
| OsdColumns.PutColumns | src/osd_api.cpp:178-216 | A complete write puts each key into that column, the attributes into all ten rows, and leaves every other column of every row as it was. |
| OsdColumns.PutMaskColumns | src/osd_api.cpp:249-274 | A complete write of masks puts each key into its column of the rows 10 to 13 and leaves every other column of every row as it was. |
| OsdColumns.ChannelRowMeans | src/osd_api.cpp:189-197 | Of a channel name, complete or not, the two names of its own are needed, and renamed unless the new name is there already. |
| OsdColumns.TextRowMeans | src/osd_api.cpp:203-212 | A text goes to the row two after its id; without an id, with one that is no number, or without its enabling value it throws for the first of these. |
| OsdColumns.MaskRowMeans | src/osd_api.cpp:257-273 | A mask needs its id and its three own names, and goes to the row ten after its id. |
| OsdViews.PutGet | src/osd_api.cpp:178-216 | What is shown after a write is the configuration written if and only if that is complete and well formed. |
| OsdViews.PutValid | src/osd_api.cpp:178-216 | No write, malformed or not, damages the tables, unless it throws. |
| OsdPartial.GetPut | src/osd_api.cpp:13-88 | Writing back what is shown leaves the table unchanged if and only if the ten overlay rows share their attributes. |
| OsdShared.PutShares | src/osd_api.cpp:184-188 | Every write with all the attributes makes them shared, unless it throws or another section names an attribute column. |
| OsdShared.WellFormedWrites | src/osd_api.cpp:189-212 | Well-formed sections, some or all, never throw and name no stray attribute columns. |
| OsdViews.PrivacyPutGet | src/osd_api.cpp:249-274 | Masks are shown as written if and only if the configuration is complete and well formed. |
| OsdViews.PrivacyGetPut | src/osd_api.cpp:141-176 | Writing back the masks that are shown changes nothing. |
| OsdViews.PutMaskRows | src/osd_api.cpp:249-274 | A complete configuration of masks is written to the four mask rows only. |
| OsdViews.PairsIndependent | src/osd_api.cpp:178-274 | Writing through one pair does not change what the other shows, but for the screen size that both carry. |
| OsdPartial.DropUnchanged | src/osd_api.cpp:178-216 | Leaving out sections that are as shown makes no difference to a write when it throws, or the attributes are not left out, or the rows share them; unless another section names attributes, only then. |
| OsdPartial.SeparateNeeded | src/osd_api.cpp:203-212 | Texts have to keep to their own rows for that: after a text with a negative id it makes a difference whether the date, as shown, is left out. |
| OsdPost.PostIsPut | src/osd_api.cpp:351-360 | Posting overlays, whole or in part, well formed or not: erasing what the printed difference to the shown configuration does not name, and then writing, gives what writing everything gives when that throws, or no attributes were posted, or their section is named, or the overlay rows share them; unless another section names attributes, only then. |
| OsdPost.MaskPostIsPut | src/osd_api.cpp:383-392 | Posting masks: erasing before the write never makes a difference, whatever is posted. |
| OsdRuns.InitialShared | thirdparty/dbserver/media.c:284-318 | In the tables at the start all overlay rows have the same attributes. |
| OsdRuns.RunKeepsShared | src/osd_api.cpp:26-34 | All overlay rows keep the same attributes over every run of overlay and mask writes, throwing ones included, in which no channel name, date, text or mask names an attribute column and no attribute section a row. |
| OsdRuns.WritesBack | src/osd_api.cpp:13-88 | After every such run from the tables at the start, writing back what is shown changes nothing. |
| OsdRuns.PostsAsPut | src/osd_api.cpp:351-360 | After every such run, posting overlays does what writing everything posted does. |
| OsdRuns.ChannelShares | src/osd_api.cpp:189-197 | A channel name posted on its own keeps the attributes shared if and only if the table refuses it or it changes none of them. |
| OsdRuns.StrayUnshares | src/osd_api.cpp:189-197 | Posting a channel name with a font size to the tables at the start makes the rows differ, and writing back what is shown then changes the tables. |
| OsdRuns.StrayPost | src/osd_api.cpp:351-360 | After that, posting what is shown is not the same as writing it. |
| OsdViews.TextTouches | src/osd_api.cpp:203-212 | A text is written to the row two after its id, whatever the id: only ids below eight stay within the overlays. |
| OsdHandlers.Database.OverlaysGet | src/osd_api.cpp:13-88 | The erasing and renaming steps compute the specified view, ids shifted by two. |
| OsdHandlers.Database.OverlaysSet | src/osd_api.cpp:178-216 | The section loop writes what is specified, or throws for the first missing key; then the tables hold exactly what comes before that key. A complete configuration is shown from then on, and only the columns it names change. |
| OsdHandlers.SoundPartPut | src/osd_api.cpp:178-216 | The part of a configuration before the first missing key can always be written, and is the whole exactly when the write succeeds. |
| OsdHandlers.Database.PrivacyGet | src/osd_api.cpp:141-176 | The erasing and renaming steps compute the specified masks, ids shifted by ten. |
| OsdHandlers.Database.PrivacySet | src/osd_api.cpp:249-274 | The mask loop writes what is specified, or throws for the first missing key; then the tables hold the masks before it. Complete masks are shown from then on, and only the columns they name change. |
| OsdHandlers.KeepOnly | src/osd_api.cpp:39-45 | Erasing keys one by one leaves exactly the keys to be kept, in whatever order they are visited. |
| JsonDiff.DiffEmpty | thirdparty/nlohmann_json/include/nlohmann/json.hpp:7816-7930 | The patch between two values is empty exactly when they are equal, at every depth. |
| JsonDiff.DiffUnder | thirdparty/nlohmann_json/include/nlohmann/json.hpp:7816-7930 | Every operation of a patch lies at or below the place that is compared. |
| JsonDiff.PlainUnchanged | thirdparty/nlohmann_json/include/nlohmann/detail/json_pointer.hpp:863-870 | Names without slash, tilde, quote, backslash or control character pass through pointers and quoted strings unchanged. |
| JsonDiff.QuotedReadsBack | thirdparty/nlohmann_json/include/nlohmann/detail/output/serializer.hpp:302-400 | Every text reads back from its quoted form, section 7 of RFC 8259. |
| JsonPatch.ReferencesOf | thirdparty/nlohmann_json/include/nlohmann/detail/json_pointer.hpp:863-880 | Every pointer built from names reads back as those names, slashes and tildes included, sections 3 and 4 of RFC 6901. |
| JsonPatch.DiffPatches | thirdparty/nlohmann_json/include/nlohmann/json.hpp:7520-7930 | The patch between two values, carried out anywhere in a document that has the first there, puts the second there and changes nothing else. |
| JsonPatch.PatchTurns | thirdparty/nlohmann_json/include/nlohmann/json.hpp:7520-7930 | Carrying out the patch between two documents, operation by operation as sections 4.1 to 4.3 of RFC 6902 say, never fails and turns the first into the second, at every depth. |
| JsonDiff.PathShown | thirdparty/nlohmann_json/include/nlohmann/detail/output/serializer.hpp:302-400 | The printed operation shows the member name right after the start of its path. |
| Prune.EraseUnchanged | src/video_api.cpp:174-183 | The erasing loop drops exactly the members of the old configuration that are neither exempt nor found. |
| Prune.PruningKeeps | src/audio_api.cpp:56-63 | Merging the pruned configuration gives what merging the full one gives if and only if the search finds every changed member. |
| Prune.NameFound | src/audio_api.cpp:59-63 | The search for a plain name finds the member whenever its value changed, however deep the change. |
| Prune.PruningByName | src/audio_api.cpp:56-63 | With plain names pruning by the bare name never loses a change, for all old and new configurations. |
| Prune.PruningByReplacement | src/video_api.cpp:170-183 | Pruning by replacements loses no change of a member that is flat or exempt. |
| Prune.RowPruned | src/video_api.cpp:170-183 | Of a database row, with integers and strings under plain names, neither search ever loses a change, whatever is sent in its place. |
| Roi.SumMeansEnabled | src/roi_api.cpp:68-79 | Enabling values that do not add up to zero mean that a region of the stream is enabled; the converse holds when none is negative. |
| Roi.RightUnlessCancelled | src/roi_api.cpp:68-79 | A flag brought up to date says whether a region is enabled if and only if the values of enabled regions do not cancel out. |
| Roi.SignsCancel | src/roi_api.cpp:91-122 | From the table at the start two requests, with opposite values for two regions of any stream, leave the flag denying that a region is enabled. |
| Roi.RequestConsistent | src/roi_api.cpp:182-190 | Every request, also one that throws, leaves every flag of every stream as the handler would take it, and the rows of other streams untouched. |
| Roi.RequestPosts | src/roi_api.cpp:182-190 | A post to a region that exists sets the posted columns of that region and nothing else but flags; every other request changes flags only. |
| Roi.RequestAnswer | src/roi_api.cpp:182-193 | The answer to a request is the region as it is afterwards, but with the flag that its stream had before. |
| Roi.RunConsistent | src/roi_api.cpp:182-190 | Over every sequence of requests every row of every stream carries the flag that the sum of its stream asks for. |
| Roi.RunRight | src/roi_api.cpp:182-190 | Over every sequence of requests without negative values every row of every stream carries the flag 1 exactly when a region of the stream is enabled. |
| Roi.InitialConsistent | thirdparty/dbserver/media.c:332-343 | The initial table, with everything disabled, has every flag right. |
| Roi.RoiTable.ChannelGet | src/roi_api.cpp:29-51 | The rows of a stream, each once and in the order of their ids; none for an unknown name. |
| Roi.RoiTable.SpecificGet | src/roi_api.cpp:53-89 | The region as it was before, with the flag of its stream brought up to date. |
| Roi.RoiTable.SpecificSet | src/roi_api.cpp:91-122 | Every posted column of the region has the posted value, all others of all rows keep theirs but for the flag, and a missing region throws after the flag was brought up to date. |
| Roi.RoiTable.Handle | src/roi_api.cpp:182-193 | After a post the region has every posted value and all else but flags is as before; the answer is the region after the change, but with the flag from before it. |

## Left out

- The exponent scan and the scaling of the receiver in `toFixed` (lines 6383 to 6388 of the es5 bundle): the model takes
  mantissa and exponent as inputs. The divisions there are by powers of two.
- BigInt keys, which the map would confuse with numbers of the same text.
- `entries` against `keys` and `values`, and subclassing of Map and Set.
- Unhandled-rejection notices, domains, and what the handlers of a promise return: a reaction is recorded with the
  state and value it sees.
- ZoneAwarePromise, whose executor functions are not limited to one call.
- Zone hooks that return another task than they were given, and hasTask and handleError hooks that call back into the
  zone.
- What happens to the ledger after a step that breaks the invariant: `Legal` leaves out exactly the steps that do.
- ZoneLedger.CountsConserved: a cancellation that throws leaves the task in the unknown state and counted, as in the code; such
  tasks are excluded from the last clause only.
- The hook after a drain, which is taken to schedule nothing.
- `parentJsonpFunction`, export values, and module bodies that throw or push chunks.
- Array species and inherited indices in `splice` and `copyWithin`; arrays hold integers.
- Interactive answers and `ignore` in the checker: automatic mode only.
- `get_refer_item` and the rewriting of rules by reference: rules are taken as already resolved, since the lookup along a path adds nothing hard.
- The `SystemPara` table is not itself checked by its own rules.
- Integer widths and float rounding in the checker: integers and rationals; the value `INT_MAX` is 2147483647 exactly.
- An integer rule on a text column reads an uninitialised variable; the model ends the run with the error `Uninitialised`.
- `advance_string2number` and `atoi` are arbitrary functions from strings to numbers.
- ConfigChecker.CheckJsonFunc: does not model the rows that were already rewritten in place when an exception ends a pass. Nothing
  can see them: the document is a local variable of `js2db`, which the exception leaves.
- CheckTables.ShapeKept: of a filtered list it looks at what limits leave at the two ends, and not at whether a value leads to that
  end: above the maximum the last option is taken, otherwise the first.
- OsdPost.PostIsPut: does not cover attribute sections with other columns, or texts with ids below zero: these write where other
  sections do, and leaving one of the two out can make a difference (`SeparateNeeded`).
- The list of favourite tables and the table tree around the parsed columns.
- Configuration sections of another JSON type than the handlers expect.
- Updates that would change the id of an OSD row, and updates with unknown columns, are refused by the modelled table.
- The image overlay and the file it reads its size from; `osd_set_mediaserver`.
- The smart-encoding rules after pruning in the video handler.
- How JSON values are printed inside a patch, and the order of members: both arbitrary.
- Patch operations that the library computes for no two values: test, move, copy, and the reference "-".
- ROI requests that change `id` or `iROIId`.
- D-Bus, SQLite, HTTP, tokens, shared memory, files and shell calls. A write updates the named columns of one row.
- The duplicate copies of Zone.js and of the webpack runtime, event and timer patching, and the linked lists of
  `thirdparty/CallFunIpc` and `thirdparty/libIPCProtocol`.
