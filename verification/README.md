# NewLang hybrid-storage array in Dafny

This project models the array type of NewLang (`array.c`). An `Array` keeps
its first `static_capacity` elements in an inline buffer that is reserved
once, together with the array itself. Further elements go to a heap buffer
(`dynamic_elems`) that is reallocated as it grows. The model has two modules:

- `ArraySpec` (array_spec.dfy) describes the live state as a value, `Parts`:
  the inline prefix, the heap prefix and the two capacities. It gives the state
  each operation produces (`AfterAppend`, `AfterNormalize`, `AfterReserve`) and
  `Visit`, the order in which `foreach` sees the elements. Its lemmas state what
  holds across several operations: order, growth ladder, capacity bounds.
- `NewLangArray` (array.dfy) is the imperative model: class `Array` with the
  struct's fields, arrays for both buffers, and one method per C function.
  Each method is proved against `ArraySpec` through the ghost function
  `Model()`. `Valid()` is the object invariant: lengths within capacities, and a
  heap buffer that exists exactly when its capacity is positive and is never
  the inline buffer.

Reading of the source:

- `append` calls `reserve_dynamic` (array.c:121-122), which is not defined
  anywhere. The model calls `resize_dynamic` (`ResizeDynamic`) there.
- `normalize` and `reserve` use bare `dynamic_length`, `static_length` and
  `static_capacity` (array.c:25, array.c:57). The model reads them as the
  fields of the array.
- An absent heap buffer is `null`. The model lets `resize_dynamic(a, 0)` release the buffer, because `Valid()` ties a null buffer to a zero capacity. This is the model's choice, not a guarantee of the source: what `realloc` does with size 0 is implementation-defined in C17 and undefined in C23. `realloc(NULL, 0)`, reached by `normalize` on an empty array with no buffer, may return a non-null block.
- `normalize` copies the inline elements after the heap elements
  (array.c:27-29). If both parts are non-empty, the order `foreach` visits
  therefore changes. The model keeps this behaviour: `AfterNormalize` states
  the exact result and `NormalizeThenAppendReorders` shows an example.
- `append` takes the inline fast path whenever the inline buffer has room
  (array.c:109), also after `normalize` has emptied it. The new element is
  then visited before the heap elements. The model keeps this too.
  `AfterAppend` proves that appending adds at the end when the inline part is
  full or the heap part is empty (`FilledInOrder`). Every operation except
  `normalize` keeps `FilledInOrder`.
- `array.c` has no indexed access, removal, heap shrinking policy or
  per-element copy and destroy hooks; the model adds none.
- `reserve` sets the heap capacity to `cap - static_capacity` rather than
  raising it to at least that, so it can also lower the heap capacity
  (`ReserveCanLowerHeapCapacity`).

## Model

| member | source | states |
|---|---|---|
| `ArraySpec.Initial` | array.c:74-83 | after `init` nothing is visited, the heap capacity is 0, the inline capacity is kept, and the state is within capacity and filled in order |
| `ArraySpec.GrownCapacity` | array.c:119-122 | growth strictly increases the heap capacity, to at most twice plus 16. It gives 16 from 0 and keeps capacities on the 16, 32, 64, ... ladder |
| `ArraySpec.AfterAppend` | array.c:105-126 | `append` adds exactly one visited element and keeps lengths within capacities. On a state filled in order it adds `v` at the end and stays in order. On the fast path `v` is visited between the inline and heap parts. The heap capacity changes only when both buffers are full |
| `ArraySpec.AppendAddsExactlyOne` | array.c:105-126 | the multiset of visited elements gains exactly `v` |
| `ArraySpec.AppendAllKeepsOrder` | array.c:105-126 | any run of appends to a state filled in order keeps it in order and within capacity. The visited sequence becomes the old one followed by the appended elements |
| `ArraySpec.AfterNormalize` | array.c:23-33 | `normalize` empties the inline part, keeps the length, and sets the heap capacity to that length, even on an array with no inline elements. The order is unchanged when either part was empty |
| `ArraySpec.NormalizeKeepsEveryElement` | array.c:23-33 | `normalize` only permutes the visited elements |
| `ArraySpec.NormalizeIdempotent` | array.c:23-33 | normalizing twice gives the same state as normalizing once |
| `ArraySpec.NormalizeThenAppendReorders` | array.c:23-33 | with inline capacity 1, appending 1 and 2 visits [1, 2], normalizing visits [2, 1], and appending 3 then visits [3, 2, 1]. The normalized state is not filled in order |
| `ArraySpec.AfterReserve` | array.c:49-58 | `reserve(cap)` never touches the elements. It is a no-op when the length reaches `cap` or `cap` fits inline. Otherwise the heap capacity is set so that the two capacities add up to exactly `cap`, which can lower it. From a valid state the total capacity is at least `cap` |
| `ArraySpec.ReserveCanLowerHeapCapacity` | array.c:57 | on a valid array filled in order (17 heap elements, heap capacity 32, no inline buffer), `reserve(20)` lowers the heap capacity to 20 and keeps the elements |
| `ArraySpec.ReserveWithinCapacityIff` | array.c:49-58 | from a valid state, `reserve(cap)` leaves a valid state if and only if its request keeps every live heap element |
| `ArraySpec.FilledInOrderReserveKeepsElements` | array.c:49-58 | on a state filled in order, every request to `reserve` keeps the live heap elements, the result stays valid and it stays filled in order |
| `ArraySpec.ReserveAfterNormalizeDropsElements` | array.c:57 | counterexample to `reserve` as written: inline capacity 4, append 1, 2, 3, normalize, then reserve(5). The heap capacity becomes 1 while it holds 3 elements |
| `ArraySpec.ResizeAssertAsWrittenRejectsGrowth` | array.c:37 | the assert as written fails on every growth in `append` and on every `normalize` with a non-empty inline part. Among the resizes that keep every element, it admits only `newlen == dynamic_length`, which sets the heap capacity to the length |
| `ArraySpec.SourceResizesKeepElements` | array.c:35-42 | the corrected check `newlen >= dynamic_length` admits the resize calls of `normalize` and of `append`'s growth. It also admits every `reserve` request that keeps the elements. The same facts are also discharged where `ResizeDynamic`'s precondition is checked at its call sites in `Normalize`, `Reserve` and `Append`; the lemma states them once at the value level |
| `ArraySpec.LadderFor` | array.c:119-122 | the reference heap capacity for a heap length: 0 when empty. Otherwise it is a rung of the 16-doubling ladder that holds the length and is under twice the length, unless it is 16 |
| `ArraySpec.LadderForIsSmallest` | array.c:119-122 | no ladder rung that holds the length is smaller than `LadderFor` |
| `ArraySpec.RungGap` | array.c:119-122 | any two different ladder rungs differ by at least a factor of two |
| `ArraySpec.StepWithinRung` | array.c:113-114 | while the heap has room, one more element keeps the reference capacity |
| `ArraySpec.StepToNextRung` | array.c:117-125 | on a full heap, one more element doubles the reference capacity |
| `ArraySpec.LadderForStep` | array.c:109-125 | the reference capacity follows one heap append exactly as `append`'s growth does |
| `ArraySpec.AppendExtendsFilledFromEmpty` | array.c:105-126 | one `append` maps the layout of `vs` built from empty to the layout of `vs + [v]` |
| `ArraySpec.AppendsFromEmpty` | array.c:105-126 | appending `vs` to an empty array puts the first min(|vs|, inline capacity) elements inline and the rest on the heap. The heap capacity is then the smallest ladder rung that holds them |
| `NewLangArray.Reallocate` | array.c:40 | reallocation gives a fresh buffer of the new capacity that holds the same live prefix |
| `NewLangArray.Array.constructor` | array.c:60-83 | the stack stub plus `init`: a fresh inline buffer of the requested capacity, the initial state, no heap buffer |
| `NewLangArray.Array.Init` | array.c:74-83 | after `init` both lengths and the heap capacity are 0 and there is no heap buffer. The length is 0, the array is normalized, and the inline capacity is unchanged |
| `NewLangArray.Array.IsNormalized` | array.c:17-20 | holds exactly when the visited elements are the heap elements, that is, all elements lie in `dynamic_elems` |
| `NewLangArray.Array.Length` | array.c:44-47 | is the number of elements `foreach` visits |
| `NewLangArray.Array.ResizeDynamic` | array.c:35-42 | under the corrected check `newlen >= dynamic_length`, the heap capacity becomes `newlen` and nothing else in the model changes. The buffer is new, or absent when `newlen` is 0 |
| `NewLangArray.Array.Normalize` | array.c:23-33 | the new state is `AfterNormalize` of the old one. The array is normalized afterwards and its length is unchanged |
| `NewLangArray.Array.Reserve` | array.c:49-58 | when the request keeps the live heap elements, the new state is `AfterReserve` of the old one. On the early returns the heap buffer is the same block |
| `NewLangArray.Array.PCopy` | array.c:94-101 | contents, lengths and capacities are unchanged. The heap buffer, if any, is a fresh allocation not shared with the original |
| `NewLangArray.Array.Append` | array.c:105-126 | the new state is `AfterAppend` of the old one. On the fast path `v` is stored at `static_elems[old static_length]` and the heap buffer is the same. Otherwise `v` is stored at `dynamic_elems[old dynamic_length]`. The heap buffer stays the same block unless both buffers were full; a changed heap buffer is fresh |
| `NewLangArray.Array.Foreach` | array.c:128-135 | returns the inline elements in order, then the heap elements in order, each once |
| `NewLangArray.AppendScenario` | array.c:105-126 | inline capacity 2, append 1, 2, 3, 4: the array visits [1, 2, 3, 4], holds 2 inline and 2 on the heap, and the heap capacity is 16 |

## Left out

- funcptr.c is not part of this model: its only operation forwards a call through a function pointer.
- The assembly stub that reserves the inline buffer on the stack (array.c:60-73). The constructor allocates the inline buffer with the requested capacity and then runs `init`.
- `destroy` (array.c:85-92) and freeing in general: Dafny's heap needs no release. Dropping a buffer is modelled as setting the field to `null` or replacing the array.
- Out-of-memory failure of `realloc` (array.c:39, array.c:98): allocation always succeeds in the model.
- `realloc` is modelled as a fresh buffer holding a copy of the live prefix. In-place growth is not modelled, nor the uninitialised slots beyond the live prefix: the model fills them with default values.
- NewLangArray.Array.ResizeDynamic: requires `newlen >= dynamic_length` in place of the assert at array.c:37, which points the other way (see Findings).
- NewLangArray.Array.Reserve: requires that the request keeps every live heap element (`ReserveKeepsElements`). The source does not check this, and after `normalize` it can drop elements (see Findings). It holds on every array filled in order (`FilledInOrderReserveKeepsElements`). Every array is filled in order until `normalize` is first applied, because every other operation keeps that property.
- NewLangArray.Array.PCopy: models the intended duplication, a fresh buffer holding a copy of all `dynamic_capacity` elements. The source instead calls `realloc` (array.c:99) on the buffer it still shares with the original. `realloc` does not duplicate: it may return the same block, so the copy stays aliased, or move it, which frees the original's buffer. It also passes `dynamic_capacity` as the byte count. None of this aliasing is modelled.
- The `foreach` callback and its `aux` pointer (array.c:128) are foreign calls. `Foreach` returns the sequence of elements the callback would receive.
- NewLangArray.Array.Append: takes `v` by value. The source takes `const Value* v` (array.c:105) and reads `*v` after the growth path has reallocated the heap buffer (array.c:121-124). A pointer into the array's own `dynamic_elems` then reads freed memory when the block moves. This aliasing hazard is not modelled.
- NewLangArray.Array.ResizeDynamic: allocates `newlen` elements. In the source the byte count `newlen * sizeof(Value)` (array.c:40) is `size_t` arithmetic and can wrap when a large `cap` is passed through `reserve` (array.c:49, array.c:57). `realloc` then returns a block smaller than the capacity recorded at array.c:41, and later appends write past it. This wrap is not modelled.
- NewLangArray.Array.Append: `size_t` arithmetic is unbounded. The wrap-around of `dynamic_capacity * 2` near 2^64 is not modelled. Growth from appends alone never reaches such a capacity, but one recorded by a wrapped `reserve` (see the `ResizeDynamic` line above) can.
- NewLangArray.Array.Init: requires only that the inline buffer has `static_capacity` slots. Calling it on a live array, which leaks the heap buffer, is not modelled separately.
- Element `Value`s are a type parameter. Per-element copy and destroy hooks, indexed access, removal and heap shrinking are not implemented in array.c and are not modelled.

## Findings

| source | as written | input that shows it | evidently intended | confidence | as-written member | corrected member |
|---|---|---|---|---|---|---|
| array.c:37 | `assert(newlen <= a->dynamic_length)` | any growth in `append`, e.g. inline capacity 0 and empty heap, where `resize_dynamic(a, 16)` has 16 > 0. Also `normalize` with one inline element | `newlen >= dynamic_length`, so that resizing keeps every live element | high; not executed | `ArraySpec.ResizeAssertAsWrittenRejectsGrowth` | `NewLangArray.Array.ResizeDynamic` |
| array.c:57 | `resize_dynamic(a, cap - static_capacity)` with no check against `dynamic_length` | with asserts disabled (NDEBUG): inline capacity 4, append 1, 2, 3, `normalize`, `reserve(5)`: the heap capacity becomes 1 and 3 elements are live | a request never drops live heap elements. The model requires `ReserveKeepsElements`, which holds on every array filled in order (`FilledInOrderReserveKeepsElements`) | medium; not executed | `ArraySpec.ReserveAfterNormalizeDropsElements` | `NewLangArray.Array.Reserve` |
