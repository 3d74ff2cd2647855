# Eloquent JavaScript study workbook, modelled in Dafny

The repository is a workbook of solved exercises from a JavaScript tutorial
(plus one small Python file). This project models every piece of it that
has behaviour worth stating, one Dafny module per chapter file:

| module | file | what it models |
|---|---|---|
| `Functions` | `functions.dfy` | chapter 3: `square`, `cube`, `roundTo`, `minimum`, the recursive `isEven`, and the bean-counting loops `countBs` and `countChar` |
| `DataStructures` | `data_structures.dfy` | chapter 4: the to-do queue kept in a shared array (`remember`, `rememberUrgently`, `getTask`), `range` with a signed step, `sum`, `reverseArray` (drains its argument by popping) and `reverseArrayInPlace` (swaps cells of an `array`) |
| `LinkedList` | `linked_list.dfy` | chapter 4 and `test.js`: `createNode`, `arrayToList` / `arrayToLinkedList`, which grow a chain of heap nodes by assigning the tail node's `rest`, and `listToArray`, which walks the chain back |
| `Flattening` | `flatten.dfy` | chapter 5: the three `flatten` variants (a `forEach` loop, `reduce` with `concat`, and spread into `concat`) |
| `SecretLifeOfObjects` | `objects.dfy` | chapter 6: `Rectangle` with validating setters, `Person.setName`, `Car`'s getters, `Vec.plus` / `Vec.minus`, and the duplicate-free `Group` with `add`, `delete`, `has` and `from` |
| `Robot` | `robot.dfy` | chapter 7: `buildGraph` (split each `"A-B"` road, add it in both directions) and `VillageState.move` |
| `BugsAndErrors` | `bugs_and_errors.dfy` | chapter 8: `firstElement`, the retrying `reliableMultiply`, and the locked `box` with `withBoxUnlocked` |
| `DayNames` | `day_names.dfy` | chapter 10: the `dayName` / `dayNumber` lookup pair |
| `DomTree` | `dom_tree.dfy` | chapter 14: `talksAbout` over an abstract tree of element, text and other nodes |
| `PyHelpers` | `py_helpers.dfy` | `test.py`: `stringToNum` and `sumList` |
| `Wrappers` | `wrappers.dfy` | `Option` and `Result`, for `undefined`, `None` and thrown errors |

Code that updates state in place is modelled as classes and methods:
- the box, a `Rectangle`, a `Person` and a `Group` are classes;
- the to-do list and the array `reverseArray` pops from are a `JsArray` class;
- list nodes are heap objects;
- `reverseArrayInPlace` works on an `array`.

Each loop (`countChar`, `range`, `sum`, `flatten`, `buildGraph`, `Group.from`, `sumList`, the list conversions) is a method. It is proved against a recursive specification function, and the properties are proved about that function. Code made of expressions stays as functions: `roundTo`, `isEven`, `flatten2`, `move`, `talksAbout` and `stringToNum`.

The Rectangle, Person and Car classes appear twice in the repository, with the same code: in `Chapter-06-Secret-Life-Of-Objects/chapter06.js` and in `chapter6.js`. They are modelled once.

Three behaviours of the code shape the model's contracts:
- The empty list. `listToArray` reads `currentNode.rest` at once, so on the `null` that `arrayToList([])` returns it throws. `LinkedList.RoundTrip` is therefore stated for non-empty sequences, and `ListToArray` requires a node.
- Malformed edges. On an edge without a `-`, `buildGraph` raises no error: `to` is simply `undefined`. The model requires every edge to contain a `-` (see "Left out").
- Self-loops. An edge `"A-A"` puts `A` twice into `A`'s own list (`Robot.SelfLoopGraph`).

## Model

| member | source | states |
|---|---|---|
| `Functions.Square` | Chapter-03-Functions/chapter03.js:17-19 | `square(x)` is never negative, and positive for every non-zero x |
| `Functions.Cube` | Chapter-03-Functions/chapter03.js:36-38 | `cube(x)` has the sign of x |
| `Functions.RoundTo` | Chapter-03-Functions/chapter03.js:25-28 | `roundTo(n, step)` with JavaScript's truncating `%`; what its value means is stated by `Functions.RoundToNearest` |
| `Functions.RoundToNearest` | Chapter-03-Functions/chapter03.js:25-28 | for n >= 0 and step > 0, `roundTo(n, step)` is a multiple of step, within half a step of n, rounds down below half a step and up from half a step on (a tie rounds up) |
| `Functions.Minimum` | Chapter-03-Functions/chapter03.js:52-55 | the result is at most both arguments and equal to one of them |
| `Functions.IsEven` | Chapter-03-Functions/chapter03.js:61-69 | for n >= 0, `isEven(n)` holds exactly when n is divisible by 2; the recursion on n - 2 only ends for n >= 0, which is required |
| `Functions.Occurrences` | Chapter-03-Functions/chapter03.js:90-102 | the count of c in s is at most the length of s |
| `Functions.OccurrencesCountsIndices` | Chapter-03-Functions/chapter03.js:90-102 | the count equals the number of indices i with `s[i] == c` |
| `Functions.CountChar` | Chapter-03-Functions/chapter03.js:90-102 | the while loop returns the number of occurrences of c in s |
| `Functions.CountBs` | Chapter-03-Functions/chapter03.js:73-85 | the while loop returns the number of occurrences of 'B' in s |
| `Functions.BeanCountingExamples` | Chapter-03-Functions/chapter03.js:73-103 | `countBs("BOB")` is 2 and `countChar("kakkerlak", "k")` is 4 |
| `DataStructures.JsArray.constructor` | chapter04.js:90 | a new array holds exactly the given items |
| `DataStructures.JsArray.Push` | chapter04.js:93 | `push` appends at the end |
| `DataStructures.JsArray.Pop` | chapter04.js:186 | `pop` removes and returns the last element; on an empty array it returns `undefined` and changes nothing |
| `DataStructures.JsArray.Unshift` | chapter04.js:97 | `unshift` prepends |
| `DataStructures.JsArray.Shift` | chapter04.js:101 | `shift` removes and returns the first element; `undefined` on an empty array |
| `DataStructures.Remember` | chapter04.js:91-94 | `remember` puts the task at the end of the to-do list; the other tasks keep their order |
| `DataStructures.RememberUrgently` | chapter04.js:95-98 | `rememberUrgently` puts the task at the front; the other tasks keep their order |
| `DataStructures.GetTask` | chapter04.js:99-102 | `getTask` returns the front task and leaves the rest in order; `undefined` for an empty list |
| `DataStructures.TodoDemo` | chapter04.js:104-115 | after the script's six `remember` calls, `getTask` returns "groceries", and after `rememberUrgently("get lit")` the list is "get lit" followed by the other five tasks in the order they were remembered |
| `DataStructures.RangeUp` | chapter04.js:157-159 | with step > 0: empty exactly when a > b; otherwise it starts at a, rises by step, never exceeds b and stops at the last value before passing b |
| `DataStructures.RangeDown` | chapter04.js:160-164 | with step < 0: empty exactly when a < b; otherwise it starts at a, falls by the step, never goes below b and stops at the last value before passing b |
| `DataStructures.RangeZeroStep` | chapter04.js:155-166 | with step 0 neither loop runs and the result is empty |
| `DataStructures.Range` | chapter04.js:155-166 | the loops (step defaulting to 1) return exactly the range described above |
| `DataStructures.SumOfAppend` | chapter04.js:168-174 | the sum of a concatenation is the sum of the sums |
| `DataStructures.Sum` | chapter04.js:168-174 | the for...of loop returns the arithmetic sum of the elements |
| `DataStructures.SumOfUnitRange` | chapter04.js:168-177 | for a <= b + 1, the sum of `range(a, b)` is (a + b)(b - a + 1) / 2 |
| `DataStructures.SumOneToTen` | chapter04.js:177 | `sum(range(1, 10))` is 55 |
| `DataStructures.Reversed` | chapter04.js:183-189 | reversal keeps the length |
| `DataStructures.ReversedIndex` | chapter04.js:183-204 | position k of the reversal holds position n - 1 - k of the original |
| `DataStructures.ReversedTwice` | chapter04.js:183-204 | reversing twice gives the original back |
| `DataStructures.ReverseArray` | chapter04.js:183-189 | `reverseArray` returns the argument's elements in reverse order and leaves the argument empty |
| `DataStructures.ReverseArrayInPlace` | chapter04.js:193-204 | the swapping loop returns the same array, whose contents are now the reversal of the old contents |
| `LinkedList.ListNode.constructor` | chapter04.js:210-215 | `createNode(value, rest = null)`: a node holding value, its `rest` defaulting to null |
| `LinkedList.ArrayToList` | chapter04.js:217-230 | null exactly for an empty array; otherwise a chain of fresh nodes whose node i holds `array[i]` and whose last node's `rest` is null |
| `LinkedList.Extend` | chapter04.js:225-228 | one loop step: a fresh node becomes the old tail's `rest`, and the chain grows by that node |
| `LinkedList.ArrayToLinkedList` | test.js:10-23 | the `test.js` copy: the same chain, null for an empty array |
| `LinkedList.ListToArray` | chapter04.js:238-250 | walking a non-null chain collects the nodes' values in order |
| `LinkedList.RoundTrip` | chapter04.js:217-251 | `listToArray(arrayToList(xs))` is xs for every non-empty xs |
| `LinkedList.ListExample` | chapter04.js:217-230 | `arrayToList([1, 2, 3])`: head value 1, then 2, then 3, then null |
| `Flattening.FlattenLength` | chapter5.js:7-13 | the flattened length is the sum of the inner lengths |
| `Flattening.FlattenMembership` | chapter5.js:7-11 | a value is in the result exactly when it is in one of the inner arrays |
| `Flattening.FlattenSnoc` | chapter5.js:9 | concatenating one more inner array onto the result extends it by that array |
| `Flattening.Flatten` | chapter5.js:7-11 | the `forEach` loop returns the in-order concatenation of the inner arrays |
| `Flattening.Flatten3` | chapter5.js:25-27 | `[].concat(...array)`, the reference meaning of flattening; `Flattening.FlattenLength` and `Flattening.FlattenMembership` state its length and contents |
| `Flattening.Reduce` | chapter5.js:18-20 | the `reduce` fold with `concat` only appends to its accumulator, which stays a prefix, and adds exactly the inner arrays' total length |
| `Flattening.Flatten2` | chapter5.js:17-21 | `flatten2(array)` has the inner arrays' total length; `Flattening.Flatten2IsFlatten3` proves it equal to `flatten3` |
| `Flattening.ReduceIsConcat` | chapter5.js:17-21 | `reduce` with `concat` from an accumulator gives the accumulator followed by the concatenation |
| `Flattening.Flatten2IsFlatten3` | chapter5.js:17-27 | `flatten2` and `flatten3` give the same result |
| `Flattening.FlattenExample` | chapter5.js:12-13 | `[[1, 2, 3], [4, 5], [6]]` flattens to `[1, 2, 3, 4, 5, 6]` |
| `SecretLifeOfObjects.Rectangle.constructor` | chapter6.js:54-57 | width and height are stored unchecked |
| `SecretLifeOfObjects.Rectangle.SetWidth` | chapter6.js:65-71 | the width changes only to a positive value; otherwise it stays as it was |
| `SecretLifeOfObjects.Rectangle.SetHeight` | chapter6.js:79-85 | the height changes only to a positive value; otherwise it stays as it was |
| `SecretLifeOfObjects.Rectangle.Area` | chapter6.js:87-89 | the `area` getter is positive whenever both sides are |
| `SecretLifeOfObjects.RectangleDemo` | chapter6.js:91-100 | `new Rectangle(10, 20)` then `width = 30` gives width 30, height 20, area 600; a height of -10 is ignored |
| `SecretLifeOfObjects.SettersKeepAreaPositive` | Chapter-06-Secret-Life-Of-Objects/chapter06.js:98-122 | starting from positive sides, any sequence of `width` and `height` setter calls, made in order, keeps both sides and the area positive |
| `SecretLifeOfObjects.Person.constructor` | chapter6.js:141-144 | name and age are stored |
| `SecretLifeOfObjects.Person.GetName` | chapter6.js:146-148 | `getName` returns the current name |
| `SecretLifeOfObjects.Person.SetName` | Chapter-06-Secret-Life-Of-Objects/chapter06.js:183-187 | a falsy (empty) name is ignored; any other replaces the name |
| `SecretLifeOfObjects.Car.constructor` | chapter6.js:161-172 | `getMake` and `getModel` return what the constructor was given |
| `SecretLifeOfObjects.Car.GetMake` | chapter6.js:166-168 | `getMake` returns the private make; `Car.constructor` states that it is the make given |
| `SecretLifeOfObjects.Car.GetModel` | chapter6.js:170-172 | `getModel` returns the private model; `Car.constructor` states that it is the model given |
| `SecretLifeOfObjects.Vec.Plus` | Chapter-06-Secret-Life-Of-Objects/chapter06.js:224-229 | `minus` with the same vector undoes `plus` |
| `SecretLifeOfObjects.Vec.Minus` | Chapter-06-Secret-Life-Of-Objects/chapter06.js:231-236 | adding the subtracted vector back gives the original vector, coordinate by coordinate |
| `SecretLifeOfObjects.PlusMinusInverse` | Chapter-06-Secret-Life-Of-Objects/chapter06.js:224-236 | `minus` undoes `plus` and the reverse, and `plus` is commutative |
| `SecretLifeOfObjects.VecExamples` | Chapter-06-Secret-Life-Of-Objects/chapter06.js:243-244 | (1, 2) + (2, 3) is (3, 5) and (1, 2) - (2, 3) is (-1, -1) |
| `SecretLifeOfObjects.Without` | Chapter-06-Secret-Life-Of-Objects/chapter06.js:270-272 | the filter removes every n, keeps every other element, and adds nothing |
| `SecretLifeOfObjects.WithoutRemovesOnePosition` | Chapter-06-Secret-Life-Of-Objects/chapter06.js:268-274 | in a duplicate-free list, deleting the value at position i leaves the elements before and after it in order |
| `SecretLifeOfObjects.WithoutAbsent` | Chapter-06-Secret-Life-Of-Objects/chapter06.js:268-274 | deleting an absent value changes nothing |
| `SecretLifeOfObjects.WithoutKeepsNoDuplicates` | Chapter-06-Secret-Life-Of-Objects/chapter06.js:268-274 | deleting keeps a list duplicate-free |
| `SecretLifeOfObjects.DistinctIsSetOfValues` | Chapter-06-Secret-Life-Of-Objects/chapter06.js:286-296 | the distinct values of an array are exactly its values, each once |
| `SecretLifeOfObjects.Group.constructor` | Chapter-06-Secret-Life-Of-Objects/chapter06.js:258-260 | a new group is empty |
| `SecretLifeOfObjects.Group.Add` | Chapter-06-Secret-Life-Of-Objects/chapter06.js:262-266 | `add` appends n only when it is absent and keeps the group duplicate-free |
| `SecretLifeOfObjects.Group.Delete` | Chapter-06-Secret-Life-Of-Objects/chapter06.js:268-274 | `delete` filters n out and keeps the group duplicate-free |
| `SecretLifeOfObjects.Group.Has` | Chapter-06-Secret-Life-Of-Objects/chapter06.js:276-280 | `has(n)` is true exactly when n is an element |
| `SecretLifeOfObjects.FirstIndex` | Chapter-06-Secret-Life-Of-Objects/chapter06.js:286-296 | the position of the first occurrence of x: `|s|` exactly when x is absent, and otherwise a position holding x with no x before it |
| `SecretLifeOfObjects.FirstIndexUnique` | Chapter-06-Secret-Life-Of-Objects/chapter06.js:286-296 | a position holding x with no x before it is the first occurrence |
| `SecretLifeOfObjects.FirstIndexPrefix` | Chapter-06-Secret-Life-Of-Objects/chapter06.js:286-296 | a value occurring in a prefix has its first occurrence there |
| `SecretLifeOfObjects.DistinctInFirstOccurrenceOrder` | Chapter-06-Secret-Life-Of-Objects/chapter06.js:286-296 | the distinct values of an array appear in the order of their first occurrences in it |
| `SecretLifeOfObjects.Group.From` | Chapter-06-Secret-Life-Of-Objects/chapter06.js:286-296 | `Group.from(array)` holds exactly the array's values, each once, in order of first occurrence |
| `SecretLifeOfObjects.GroupDemo` | Chapter-06-Secret-Life-Of-Objects/chapter06.js:300-305 | `from([10, 20])` has 10, lacks 30, and lacks 10 after `add(10)` and `delete(10)` |
| `Robot.Split` | Chapter-07-Project-A-Robot/chapter07.js:55 | `split` gives at least one piece, no piece holds the separator, there are two or more pieces exactly when the separator occurs, and joining the pieces gives the string back |
| `Robot.Endpoints` | Chapter-07-Project-A-Robot/chapter07.js:55 | `[from, to]` are hyphen-free, and "from-to" is the whole edge or, when the edge has a second hyphen, "from-to-" begins it |
| `Robot.SplitWithoutSeparator` | Chapter-07-Project-A-Robot/chapter07.js:55 | a string without the separator splits into itself alone |
| `Robot.SplitAfterPiece` | Chapter-07-Project-A-Robot/chapter07.js:55 | splitting "a" + separator + rest, for a separator-free a, gives a followed by the pieces of rest |
| `Robot.EdgeEndpoints` | Chapter-07-Project-A-Robot/chapter07.js:55 | the ends of the edge "a-b", for hyphen-free names, are a and b |
| `Robot.AddEdge` | Chapter-07-Project-A-Robot/chapter07.js:32-47 | `addEdge` appends `to` to an existing list of `from` or creates `[to]`; no other entry changes |
| `Robot.BuildGraph` | Chapter-07-Project-A-Robot/chapter07.js:26-70 | the loop returns the graph of all edges added in both directions |
| `Robot.GraphOfIsNeighbours` | Chapter-07-Project-A-Robot/chapter07.js:26-70 | the graph's keys are exactly the names in the edges, and each list holds that name's neighbours in edge-processing order |
| `Robot.LookupAddEdge` | Chapter-07-Project-A-Robot/chapter07.js:37-46 | after `addEdge(from, to)`, the list of `from` has `to` appended and every other list is as before |
| `Robot.EdgeEndsAreNeighbours` | Chapter-07-Project-A-Robot/chapter07.js:55-58 | for every edge "A-B", A and B are keys, B is in A's list and A in B's |
| `Robot.NeighboursOfEdge` | Chapter-07-Project-A-Robot/chapter07.js:55-58 | each edge makes its two ends neighbours of each other |
| `Robot.NeighboursSymmetric` | Chapter-07-Project-A-Robot/chapter07.js:55-58 | y is a neighbour of x exactly when x is a neighbour of y |
| `Robot.AddEdgeTotalLength` | Chapter-07-Project-A-Robot/chapter07.js:37-46 | one `addEdge` lengthens the lists by one element in total |
| `Robot.GraphTotalLength` | Chapter-07-Project-A-Robot/chapter07.js:26-70 | the lists together have twice as many elements as there are edges |
| `Robot.OneEdgeGraph` | Chapter-07-Project-A-Robot/chapter07.js:55-58 | for any two distinct hyphen-free names, the one edge "a-b" gives `{a: [b], b: [a]}` |
| `Robot.SelfLoopGraph` | Chapter-07-Project-A-Robot/chapter07.js:55-58 | for any hyphen-free name, the edge "a-a" gives `{a: [a, a]}` |
| `Robot.BuildGraphExampleOne` | Chapter-07-Project-A-Robot/chapter07.js:26-70 | `buildGraph(["X-Y"])` is `{X: [Y], Y: [X]}` |
| `Robot.BuildGraphExampleTwo` | Chapter-07-Project-A-Robot/chapter07.js:26-70 | `buildGraph(["A-B", "B-C"])` is `{A: [B], B: [A, C], C: [B]}` |
| `Robot.Carry` | Chapter-07-Project-A-Robot/chapter07.js:86-88 | the `map` step keeps the number and order of parcels and every address; each parcel at the old place is now at the destination, every other parcel is unchanged, and when the destination differs no parcel is left at the old place |
| `Robot.KeepAsWritten` | Chapter-07-Project-A-Robot/chapter07.js:89 | the filter as written never lengthens the list (that it drops nothing is `Robot.KeepAsWrittenKeepsAll`) |
| `Robot.KeepAsWrittenKeepsAll` | Chapter-07-Project-A-Robot/chapter07.js:89 | the filter as written keeps every parcel |
| `Robot.Move` | Chapter-07-Project-A-Robot/chapter07.js:82-92 | a move to a non-neighbour returns the same state; otherwise a state at the destination with the same number of parcels, those at the old place carried along and the rest unchanged |
| `Robot.MoveKeepsDeliveredParcel` | Chapter-07-Project-A-Robot/chapter07.js:89 | as written, a parcel carried to its address is not delivered |
| `Robot.KeepUndelivered` | Chapter-07-Project-A-Robot/chapter07.js:89 | the intended filter never lengthens the list |
| `Robot.KeepUndeliveredMembers` | Chapter-07-Project-A-Robot/chapter07.js:89 | the intended filter keeps exactly the parcels not at their address |
| `Robot.KeepUndeliveredKeepsAll` | Chapter-07-Project-A-Robot/chapter07.js:89 | when no parcel is at its address, the intended filter returns the list unchanged |
| `Robot.KeepUndeliveredAppend` | Chapter-07-Project-A-Robot/chapter07.js:89 | the intended filter distributes over concatenation, so kept parcels stay in order |
| `Robot.MoveDelivering` | Chapter-07-Project-A-Robot/chapter07.js:82-92 | the intended move: to a non-neighbour the state is unchanged; otherwise the robot is at the destination and its parcels are those of the move as written with the intended filter applied |
| `Robot.MoveDeliveringDropsDeliveredParcel` | Chapter-07-Project-A-Robot/chapter07.js:89 | with the intended filter, the parcel carried to its address is delivered |
| `BugsAndErrors.FirstElement` | Chapter-8-Bugs-and-Errors/chapter08.js:107-112 | throws "firstElement called with []" exactly for an empty array, and otherwise returns the first element |
| `BugsAndErrors.PrimitiveMultiply` | Chapter-8-Bugs-and-Errors/chapter08.js:123-129 | on a lucky draw it returns a * b; otherwise it throws a MultiplicatorUnitFailure "Klunk" |
| `BugsAndErrors.ReliableMultiply` | Chapter-8-Bugs-and-Errors/chapter08.js:131-141 | if it returns, it returns a * b; it returns exactly when some draw is lucky |
| `BugsAndErrors.ReliableMultiplyStopsAtFirstSuccess` | Chapter-8-Bugs-and-Errors/chapter08.js:131-141 | any number of failures followed by a success gives a * b |
| `BugsAndErrors.Box.constructor` | Chapter-8-Bugs-and-Errors/chapter08.js:148-150 | the box starts locked and empty |
| `BugsAndErrors.Box.Unlock` | Chapter-8-Bugs-and-Errors/chapter08.js:152 | `unlock` clears `locked` and changes nothing else |
| `BugsAndErrors.Box.Lock` | Chapter-8-Bugs-and-Errors/chapter08.js:153 | `lock` sets `locked` and changes nothing else |
| `BugsAndErrors.Box.Content` | Chapter-8-Bugs-and-Errors/chapter08.js:155-158 | the getter throws "Locked!" while locked and otherwise returns the contents |
| `BugsAndErrors.Box.PushContent` | Chapter-8-Bugs-and-Errors/chapter08.js:175 | a push through the getter throws "Locked!" on a locked box, and otherwise appends to the box's own contents |
| `BugsAndErrors.RunUnlocked` | Chapter-8-Bugs-and-Errors/chapter08.js:165-167 | on an unlocked box a body runs to its first throw, and what it pushed before stays in the box |
| `BugsAndErrors.RunLocked` | Chapter-8-Bugs-and-Errors/chapter08.js:155-158 | on a locked box a body that pushes throws "Locked!" at once and changes nothing |
| `BugsAndErrors.RunBody` | Chapter-8-Bugs-and-Errors/chapter08.js:165-167 | running the body's steps one by one gives the exception and contents described by the body |
| `BugsAndErrors.WithBoxUnlocked` | Chapter-8-Bugs-and-Errors/chapter08.js:161-172 | whether the body returns or throws, the lock state afterwards equals the state before, and the body ran as on an unlocked box |
| `BugsAndErrors.LockedBoxDemo` | Chapter-8-Bugs-and-Errors/chapter08.js:174-186 | after the script the box is locked, holds the gold piece, and the second body's error reached the caller |
| `DayNames.DayName` | Chapter-10-Modules/chapter10_1.js:83-88 | `dayName(n)` is `names[n]` for 0 <= n < 7 and `undefined` otherwise |
| `DayNames.IndexOf` | Chapter-10-Modules/chapter10_1.js:89-91 | `indexOf` is -1 exactly when the value is absent, and otherwise the index of its first occurrence |
| `DayNames.DayNumber` | Chapter-10-Modules/chapter10_1.js:89-91 | `dayNumber(name)` is -1 for a name not in `names`, and otherwise an index holding the name |
| `DayNames.NamesDistinct` | Chapter-10-Modules/chapter10_1.js:83-84 | the seven names are pairwise distinct |
| `DayNames.DayNumberOfDayName` | Chapter-10-Modules/chapter10_1.js:83-91 | `dayNumber(dayName(n))` is n for 0 <= n < 7 |
| `DayNames.DayNameOfDayNumber` | Chapter-10-Modules/chapter10_1.js:83-91 | `dayName(dayNumber(s))` is s for every s in `names` |
| `DayNames.DayNameEnds` | Chapter-10-Modules/chapter10_1.js:83-91 | day 0 is "Sunday", day 6 "Saturday", day 7 undefined, and "Someday" has number -1 |
| `DomTree.Contains` | chapter14.js:161 | `indexOf(string) > -1` holds exactly when the string occurs at some position of the text |
| `DomTree.TalksAbout` | chapter14.js:147-163 | an element talks about s exactly when some child does; a text node exactly when its text contains s; any other node gives `undefined` |
| `DomTree.AnyChildTalksAbout` | chapter14.js:152-157 | the loop over the children returns true exactly when some child talks about s |
| `DomTree.TalksAboutIffSomeText` | chapter14.js:147-163 | a node talks about s exactly when one of the texts below it contains s |
| `DomTree.ChildrenTalkIffSomeText` | chapter14.js:152-157 | some child talks about s exactly when some text below the children contains s |
| `DomTree.NoChildrenNoMention` | chapter14.js:147-163 | an element with no children gives false, and a comment node never gives true |
| `DomTree.BookExample` | chapter14.js:165-168 | an element with "my book" nested in it talks about "book"; one with only "pen" does not |
| `PyHelpers.StringToNum` | test.py:1-8 | a value comes back exactly for a string of ASCII digits; any other string, or a value that is not a string, gives None |
| `PyHelpers.IsNumeric` | test.py:3 | `isnumeric()` on ASCII text: a non-empty string of the digits 0 to 9 |
| `PyHelpers.DigitsValue` | test.py:4 | `int(s)` on a digit string, read from the most significant digit; `PyHelpers.DigitsValueOfDecimal` proves it inverts decimal notation |
| `PyHelpers.StringToNumOfDecimal` | test.py:3-4 | the decimal digits of n convert back to n |
| `PyHelpers.DigitsValueOfDecimal` | test.py:4 | `int` of the decimal digits of n is n |
| `PyHelpers.StringToNumRejects` | test.py:1-8 | "" and "-4" are not numeric; an int and None are not strings; "42" converts to 42 |
| `PyHelpers.SumList` | test.py:11-18 | the loop returns the sum of the integer and boolean elements (a boolean as 0 or 1), skipping the rest |
| `PyHelpers.NumericSumAppend` | test.py:13-15 | the sum of a concatenation is the sum of the sums |
| `PyHelpers.NumericSumSkips` | test.py:14-17 | a string or None, whose addition raises TypeError, adds nothing |
| `PyHelpers.SumListExample` | test.py:12-20 | `sumList([2, 6, 12, True])` is 21, and the empty list sums to 0 |

## Left out

- Console output (`console.log`, `console.error`, Python `print`) is not modelled. It has no effect on the values returned.
- JavaScript numbers are modelled as unbounded integers. Floating point is left out: `roundTo`'s comparison with `step / 2` is written `2 * remainder < step`, which agrees with it for all integers.
- Functions.RoundToNearest: only n >= 0 and step > 0 are covered. `roundTo` with step 0 gives NaN and is excluded by a requires. For negative arguments the model uses JavaScript's truncating `%` and states nothing further.
- `Temperature` and `Vec.length` are not modelled; they are floating-point code (`/ 1.8`, `Math.sqrt`).
- `Math.random` in `primitiveMultiply` becomes a sequence of draws passed in. `BugsAndErrors.ReliableMultiply` describes only runs that end within the given draws (partial correctness). Termination is only probabilistic.
- BugsAndErrors.ReliableMultiply: the rethrow of an error other than MultiplicatorUnitFailure is modelled, but it cannot happen, because `primitiveMultiply` throws nothing else.
- The body passed to `withBoxUnlocked` is modelled as a list of steps, each a push onto the box's content or a throw. Other code a body could run is not modelled.
- Robot.Endpoints, Robot.BuildGraph: an edge without a hyphen is excluded by a requires. In the code, `to` becomes `undefined`, the value `undefined` is pushed onto `from`'s list, and a key "undefined" is created. The model's lists hold only strings.
- Functions.IsEven: the source recurses once per step of 2. For a negative n it never reaches a base case, and for a large positive n (about twice the engine's stack depth) it exceeds the call stack; both end in a `RangeError`. The model requires n >= 0 and answers for every such n, with no stack bound.
- Functions.CountChar, Functions.CountBs, Functions.Occurrences: strings are sequences of Unicode characters, whereas JavaScript strings index UTF-16 code units. For a character outside the Basic Multilingual Plane they differ: `countChar("😀😀", "😀")` is 0 in JavaScript, since `string[i] == "😀"` never holds for a single code unit, but 2 here.
- DomTree.Contains: `indexOf` in `talksAbout` matches UTF-16 code units. A text holding an unpaired surrogate, which a Dafny string cannot hold, is not modelled.
- Functions.CountChar: the character to count is a `char`. Called with a string of two or more code units, `countChar` compares it with single code units and always returns 0; that call is not expressible here.
- Robot.Move: the place must be a key of the graph. For any other place, `roadGraph[this.place].includes` throws a TypeError. The graph is a parameter instead of the global `roadGraph`.
- JavaScript's loose comparisons and coercions are not modelled: `==`, `!=`, the truthiness of non-strings, and `includes` matching NaN. `Group` and `Person` are over Dafny equality and strings.
- PyHelpers.StringToNum: only ASCII digits count as numeric. Python's `isnumeric` also accepts other Unicode digits and numerals.
- PyHelpers.SumList: Python floats and other addable types are not modelled. Values are ints, booleans, strings and None.
- The empty stubs `deepEqual` and the chapter6.js `class Vec {}` have no behaviour to model.
- The `Group.print` method is output only.
- chapter14.js apart from `talksAbout` is not part of this model. It is live-DOM manipulation and a floating-point animation.
- The other chapter files are not part of this model (chapters 8, 10 part 2, 11, 13, 15 and 18). They hold global-scope demonstrations, dates, callbacks, promises, file and network I/O, and browser snippets in comments.
- `LinkedList.ArrayToLinkedList` in test.js is the same code as `arrayToList`, and is modelled by calling it.
- `LinkedList.ListExample` uses `[1, 2, 3]` rather than the script's `[1, 2, 3, 4, 5]`.
- Printing a list with `util.inspect` is output only.
- Aliasing between a caller's array and the model is not modelled. `reverseArray` and the to-do queue work on a `JsArray` object, not a JavaScript array shared with other code.

## Findings

| source | as written | input that shows it | evidently intended | confidence | as-written member | corrected member |
|---|---|---|---|---|---|---|
| Chapter-07-Project-A-Robot/chapter07.js:89 | the delivery filter compares a parcel's place with the misspelled property `adress`, which is `undefined`, so no parcel is ever dropped | graph `{A: [B], B: [A]}`, robot at A with one parcel at A addressed to B, move to B: the parcel stays, now at B = its address | compare with `address`, so that parcels brought to their address are delivered | not executed | `Robot.MoveKeepsDeliveredParcel` | `Robot.MoveDelivering` |
