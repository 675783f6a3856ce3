# Priority queue

A model of the generic `PriorityQueue<T>` class in
`src/lib/PriorityQueue.ts`, which stores items, each with a numeric priority.
The queue keeps its entries in one array ordered by priority, highest first.
No other source file imports or calls the queue. Its intended use as the
frontier of a path search is context only and is not modelled.

- `enqueue(item, priority)` scans the array from the front and splices the new
  entry in front of the first entry whose priority is strictly lower; if there
  is none it pushes the entry on the end;
- `dequeue()` shifts the head off the array and returns its item, or
  `undefined` when the array is empty;
- `isEmpty()` tests for an empty array.

Because the comparison is strict, entries of equal priority leave in the order
they arrived (a stable, first-in-first-out tie-break).

Files:

- `wrappers.dfy`: `Option`, whose `None` stands for the `undefined` result of
  dequeueing an empty queue.
- `priority_queue.dfy`: module `PriorityQueue`. Its first part states on
  values where an enqueue puts an entry (`InsertionIndex`, `Insert`), what a
  run of enqueues builds (`Build`), and the per-priority line of entries
  (`WithPriority`), and proves their properties. Its second part is the class
  `PriorityQueue` with the field `items`, a sequence the methods reassign as
  the source's methods mutate their array. `Enqueue` keeps the source's `for`
  loop, `added` flag and `break`. Two ghost fields record arrival order:
  `stamps` gives each stored entry its enqueue number and `clock` counts
  enqueues. With them `Valid()` states the object invariant: the queue is
  sorted, and of two entries of equal priority the one in front arrived
  first. `TieBreakScenario` is a client that enqueues at mixed priorities with
  exact ties and proves the order in which they come out. `RunScenario` is a
  client that shows a fresh queue after a run of `Enqueue` calls holds
  `Build` of the enqueued entries, which ties the `Build` lemmas to the class.

The priority is a JavaScript `number`, but the code only compares priorities
with `<`. The model therefore uses `int`.

## Model

| member | source | states |
|---|---|---|
| PriorityQueue.InsertionIndex | src/lib/PriorityQueue.ts:12-18 | the scan stops at the first entry whose priority is strictly lower than the new one; every entry before that point has priority at least as high; with no lower entry the index is the length |
| PriorityQueue.Insert | src/lib/PriorityQueue.ts:8-22 | the queue grows by one; the new entry sits at the insertion index; the entries in front of it are unchanged and those behind it are the old ones shifted back by one, so the old entries keep their relative order |
| PriorityQueue.InsertPlacement | src/lib/PriorityQueue.ts:12-16 | in a sorted queue an old entry ends up in front of the new one exactly when its priority is at least the new priority (both directions) |
| PriorityQueue.InsertAppends | src/lib/PriorityQueue.ts:20-22 | when no entry has a lower priority, including the empty queue, the new entry becomes the last element |
| PriorityQueue.InsertSorted | src/lib/PriorityQueue.ts:8-22 | enqueueing into a queue with non-increasing priorities keeps them non-increasing |
| PriorityQueue.InsertMultiset | src/lib/PriorityQueue.ts:14-21 | the multiset of entries after an enqueue is the old multiset plus the new entry |
| PriorityQueue.InsertWithPriority | src/lib/PriorityQueue.ts:13-16 | the stable tie-break for one enqueue: the entries of the new entry's priority keep their order and the new entry joins the end of that line; the line of every other priority is unchanged |
| PriorityQueue.DequeueWithPriority | src/lib/PriorityQueue.ts:25-27 | removing the head takes it off the front of its own priority's line and leaves every other line as it was |
| PriorityQueue.BuildSorted | src/lib/PriorityQueue.ts:8-22 | any run of enqueues into a fresh queue leaves it sorted by non-increasing priority |
| PriorityQueue.BuildMultiset | src/lib/PriorityQueue.ts:8-22 | a run of enqueues holds exactly the entries enqueued, no more and no fewer |
| PriorityQueue.BuildWithPriority | src/lib/PriorityQueue.ts:12-22 | after a run of enqueues the entries of each priority are held in the order they were enqueued |
| PriorityQueue.SortedLinesDetermine | src/lib/PriorityQueue.ts:13 | two sorted queues with the same line of entries for every priority are equal |
| PriorityQueue.BuildIsStableSort | src/lib/PriorityQueue.ts:8-22 | what a run of enqueues builds is the stable sort of the entries by descending priority: a sequence equals it exactly when it is sorted and has the enqueue order within every priority |
| PriorityQueue.FirstOut | src/lib/PriorityQueue.ts:8-27 | the first entry dequeued after a run of enqueues is one of them, has the highest priority enqueued, and is the earliest enqueued of that priority |
| PriorityQueue.InsertKeepsArrivalOrder | src/lib/PriorityQueue.ts:13-16 | enqueueing a newer entry into a sorted queue whose equal-priority entries are in arrival order keeps them in arrival order |
| PriorityQueue.PriorityQueue.constructor | src/lib/PriorityQueue.ts:4-6 | a new queue is valid and empty |
| PriorityQueue.PriorityQueue.Enqueue | src/lib/PriorityQueue.ts:8-23 | the new contents are `Insert` of the old contents and the new entry; the queue stays valid, so it stays sorted and equal-priority entries stay in arrival order |
| PriorityQueue.PriorityQueue.Dequeue | src/lib/PriorityQueue.ts:25-27 | on an empty queue returns `None` and changes nothing; otherwise returns the head's item and drops the head, and the head had the highest priority held and was the earliest enqueued of the entries with that priority |
| PriorityQueue.PriorityQueue.IsEmpty | src/lib/PriorityQueue.ts:29-31 | true exactly when the queue holds no entries; changes nothing |

## Left out

- Priorities are integers. The source's priorities are JavaScript floating-point numbers. The code never does arithmetic on them, but every `<` with a `NaN` priority is false. A new entry with priority `NaN` never makes the scan stop, so it is always appended at the end. A stored `NaN` entry never stops the scan either, yet a later entry can still stop at an earlier, lower entry and end up in front of it. So `NaN` entries can break the queue's sortedness, which the model assumes. The model has no `NaN`.
- The `undefined` result of `dequeue` becomes `None` of `Option<T>`. In the source the result `undefined` cannot be told apart from a stored `undefined` item; the model keeps the two apart.
- The source files contain no user of the queue, so no caller is modelled. Also not modelled: the similarity scoring in `src/app/api/wikipedia/route.ts` (floating point and an external embedding model), the Wikipedia link fetch (network I/O), the SQLite helpers in `src/lib/db.ts` and `src/lib/db.worker.*` (foreign calls and worker threads), and the React page in `src/components/home.tsx` (UI and stream reading).
- `dequeue` returns only the stored item, not its priority; `Dequeue` likewise returns `Option<T>` of the item.
