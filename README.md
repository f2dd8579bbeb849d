# Image gallery state, modelled in Dafny

This project models the state logic of the `ImageGal` component of a
placeholder image gallery. The component holds:

- an append-only sequence of image records, each with an id, a width × height size and a list of tags;
- an optional selected tag.

The model covers these operations:

- **Load.** Records are created in batches: 12 when the component mounts, 6 per later load.
- **Generate.** Each record gets a random size and 1–4 random tags from a fixed pool of ten.
- **Add tag.** A user can add a tag to one record, and duplicate tags are dropped.
- **Filter.** Clicking a tag shows only the records that carry it. Clearing the filter shows all records again.

Files:

- `seqs.dfy` (module `Seqs`): generic sequence facts. It has `Option`, duplicate-freedom, de-duplication in insertion order (how a JavaScript `Set` iterates), permutations of duplicate-free sequences and subsequences.
- `generators.dfy` (module `Generators`): the module-level helpers `tagPool`, `getRandomSize` and `getRandomTags`.
  - `getRandomTags` sorts the shared pool array in place with a random comparator. It is modelled as a method that writes the supplied shuffled order into an `array<string>` and returns a prefix of it.
  - The pure part of `getRandomTags` is the function `DrawnTags`.
- `image_gal.dfy` (module `ImageGal`): the pure transformations behind each state update and the class `Gallery`.
  - The pure transformations are the batch factory, `AddTagTo` (the `map` with `Set` de-duplication) and `FilterByTag` (the `filter`).
  - `Gallery` holds the fields `images`, `selectedTag` and the shared `pool`. Its methods mirror `loadMoreImages`, the mount effect, `addTag`, `handleTagClick` and the `clearFilter` callback. `FilteredImages` mirrors `filteredImages`.

Randomness and the browser are parameters:

- **Size draws.** Each `Math.floor(Math.random() * n)` is an integer draw in `[0, n)`.
- **Shuffle.** The order the random-comparator sort leaves the pool in is a supplied arrangement of the pool. It is stated as "pool length, no repeats, exactly the pool's tags". `ShuffleIsPermutation` proves this is the same as being a permutation (multiset equality).
- **Ids.** The value of each `crypto.randomUUID()` is a supplied id. It must differ from every existing id and from the other new ids.
- **Prompt.** The answer to `prompt` is an `Option<string>`, where `None` means the prompt was cancelled.

The model follows the code where a set-based reading of it would differ:

- **Tag lists.** Tags are an ordered list, not a set. `[...new Set([...tags, t])]` keeps each old tag at its first occurrence, in order, drops repeated old tags, and appends `t` only if it is absent. `WithTag` is defined as exactly that: `Dedup(tags + [t])`.
- **Falsy values.** JavaScript truthiness is modelled by the predicate `Truthy`. `addTag` ignores `null` and also the empty string. `filteredImages` ignores a selected tag that is `""`, as well as `null`, and shows every record.

## Model

| member | source | states |
|---|---|---|
| Generators.RandomSize | src/app/Components/ImageGal.jsx:16-19 | for draws in [0,130) and [0,140), width is in [150,280) and height in [160,300) |
| Generators.RandomSizeExactlyCovers | src/app/Components/ImageGal.jsx:17-18 | every size in those bounds comes from exactly one pair of draws, so the bounds are tight |
| Generators.TagPoolDistinct | src/app/Components/ImageGal.jsx:7 | the ten pool tags are pairwise distinct |
| Generators.ShuffleIsPermutation | src/app/Components/ImageGal.jsx:11 | a sequence is an arrangement of the pool (length, no repeats, same tags) exactly when it is a permutation of the pool |
| Generators.DrawnTags | src/app/Components/ImageGal.jsx:10-13 | the tags returned are a prefix of the shuffled pool, 1 to 4 long (count draw + 1), pairwise distinct, all from the pool |
| Generators.DrawnTagsReachesEveryChoice | src/app/Components/ImageGal.jsx:10-13 | conversely, every duplicate-free choice of 1 to 4 pool tags is produced by some shuffle and count draw |
| Generators.GetRandomTags | src/app/Components/ImageGal.jsx:10-13 | the shared pool array is left in the shuffled order (still an arrangement of the pool), and the result is `DrawnTags` of that order |
| Seqs.Dedup | src/app/Components/ImageGal.jsx:62 | `[...new Set(s)]`: duplicate-free, with exactly the elements of `s` |
| Seqs.DedupFromFront | src/app/Components/ImageGal.jsx:62 | read from the front, `Dedup` keeps the first element and then the de-duplicated rest without it: every element at its first occurrence, in first-occurrence order |
| ImageGal.ImageOf | src/app/Components/ImageGal.jsx:33-37 | a record built from one draw has the draw's id, a size in bounds, and 1 to 4 distinct pool tags |
| ImageGal.Batch | src/app/Components/ImageGal.jsx:33-37 | a batch has one record per draw, carrying the draws' ids in order, each record valid |
| ImageGal.NewBatch | src/app/Components/ImageGal.jsx:33-37 | building the batch one record at a time yields `Batch(draws)`, and leaves the pool in the last draw's shuffled order (unchanged for an empty batch) |
| ImageGal.LoadKeepsValid | src/app/Components/ImageGal.jsx:33-39 | appending a batch with fresh ids keeps all ids unique and every tag list non-empty and duplicate-free |
| ImageGal.Gallery.constructor | src/app/Components/ImageGal.jsx:23-24 | the gallery starts with no records and no selected tag |
| ImageGal.Gallery.LoadMoreImages | src/app/Components/ImageGal.jsx:32-40 | the image count grows by exactly `count` (default 6), the old records stay as a prefix followed by the new batch, the selected tag is unchanged, the invariant is kept |
| ImageGal.Gallery.Mount | src/app/Components/ImageGal.jsx:27-29 | the mount effect appends a batch of 12 and leaves the pool in the last draw's shuffled order |
| ImageGal.WithTag | src/app/Components/ImageGal.jsx:62 | the new tag list is non-empty and duplicate-free, and contains exactly the old tags plus the added one |
| ImageGal.WithTagAppendsIfAbsent | src/app/Components/ImageGal.jsx:62 | on a duplicate-free list the old tags keep their order and the added tag is appended only if it was absent |
| ImageGal.WithTagIdempotent | src/app/Components/ImageGal.jsx:62 | adding the same tag twice gives the same list as adding it once |
| ImageGal.AddTagTo | src/app/Components/ImageGal.jsx:60-64 | length, order, ids and sizes are unchanged; records with another id are unchanged; the matching record's tags become `WithTag` of its old tags |
| ImageGal.AddTagUnknownId | src/app/Components/ImageGal.jsx:60-64 | an id that matches no record leaves the whole sequence unchanged |
| ImageGal.AddTagIdempotent | src/app/Components/ImageGal.jsx:59-65 | adding a tag twice to the same record equals adding it once |
| ImageGal.AddTagKeepsValid | src/app/Components/ImageGal.jsx:59-65 | adding a tag keeps ids unique and every tag list non-empty and duplicate-free |
| ImageGal.AddTagToMatchingRecord | src/app/Components/ImageGal.jsx:60-63 | with unique ids, the chosen record's tags are its old tags in order plus the new tag if absent, and every other record is unchanged |
| ImageGal.AddTagAppend | src/app/Components/ImageGal.jsx:60-64 | tagging works per record, so it distributes over concatenation |
| ImageGal.Gallery.AddTag | src/app/Components/ImageGal.jsx:56-67 | a cancelled or empty answer leaves the images unchanged; otherwise images become `AddTagTo` of the old ones; the selected tag is unchanged, the invariant kept |
| ImageGal.FilterByTag | src/app/Components/ImageGal.jsx:71 | a record is in the result exactly when it is in the input and carries the tag |
| ImageGal.FilterIsSubsequence | src/app/Components/ImageGal.jsx:71 | the records kept appear in their original relative order |
| ImageGal.FilterAppend | src/app/Components/ImageGal.jsx:71 | filtering distributes over concatenation, each record judged by its own tags |
| ImageGal.FilterCommutesWithAddTag | src/app/Components/ImageGal.jsx:59-72 | adding a tag other than the selected one and then filtering equals filtering and then adding it |
| ImageGal.Gallery.FilteredImages | src/app/Components/ImageGal.jsx:70-72 | with no truthy selected tag, all records; otherwise exactly the records carrying it, as an order-preserving subsequence |
| ImageGal.Gallery.HandleTagClick | src/app/Components/ImageGal.jsx:75-78 | the selected tag becomes the clicked tag; the images are untouched |
| ImageGal.Gallery.ClearFilter | src/app/Components/ImageGal.jsx:85 | the selected tag becomes none, the images are untouched, and clearing when already unfiltered changes nothing |
| ImageGal.LoadScenario | src/app/Components/ImageGal.jsx:26-40 | mount plus one more load gives 18 records whose first 12 are the initial batch; after selecting a tag and clearing it, every record is shown |

## Left out

- Rendering: JSX, CSS classes, the masonry layout and the highlighted tag button (lines 81–117) are presentation only.
- The scroll listener: the near-bottom test on `window.innerHeight + window.scrollY`, and attaching and detaching the listener (lines 43–54), are DOM event plumbing. Loading more is an operation the environment may call at any time.
- `window.scrollTo` in `handleTagClick` (line 77) is browser I/O with no effect on the state.
- `prompt` (line 57) is browser I/O. Its answer is a parameter.
- `Math.random` and `crypto.randomUUID` are floating-point and randomness sources. They are replaced by supplied integer draws, a supplied arrangement of the pool and supplied ids.
- `ImageGal.Gallery.LoadMoreImages` requires fresh ids. The source relies on `crypto.randomUUID` being unique with overwhelming probability.
- The placeholder URL `https://placehold.co/WxH` (line 35) refers to an external service. A record keeps its size as an integer pair.
- `FilterCategory` (line 4) is a display component that is not part of this model. It receives the selected tag and the `clearFilter` callback.
- React's `useState`/`useEffect` scheduling (batched functional updates, effects running twice in development) is framework internals. Each state update is applied at once, in call order.
