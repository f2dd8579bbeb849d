/** The module-level helpers of the gallery component: the fixed tag pool, the
    random tag picker, which shuffles the shared pool in place and takes a
    prefix of it, and the random image size. Every random number is a
    parameter: an integer draw in the range the source's `Math.floor` can
    produce, or the order the shuffle happened to leave the pool in. */
module Generators {
  import opened Seqs

  /** The candidate tags, in their declared order. */
  const TagPool: seq<string> :=
    ["AI", "Tech", "Innovation", "Developer", "Explore", "Coding", "Test", "Gallery", "Stack", "Diversition"]

  /** A record gets between 1 and MaxTags tags. */
  const MaxTags: nat := 4

  /** Width is MinWidth plus a draw below WidthSpan; height likewise. */
  const MinWidth: int := 150
  const WidthSpan: nat := 130
  const MinHeight: int := 160
  const HeightSpan: nat := 140

  /** A placeholder image size, width by height in pixels. */
  datatype Size = Size(width: int, height: int)

  /** The sizes the generator may produce: width in [150, 280), height in [160, 300). */
  predicate InBounds(s: Size) {
    150 <= s.width < 280 && 160 <= s.height < 300
  }

  /** `Math.floor(Math.random() * 130) + 150` by `Math.floor(Math.random() * 140) + 160`,
      with the two floored products supplied as draws. */
  function RandomSize(widthDraw: int, heightDraw: int): (s: Size)
    requires 0 <= widthDraw < WidthSpan && 0 <= heightDraw < HeightSpan
    ensures InBounds(s)
  {
    Size(MinWidth + widthDraw, MinHeight + heightDraw)
  }

  /** Every size in bounds is produced by exactly one pair of draws. */
  lemma RandomSizeExactlyCovers(s: Size, widthDraw: int, heightDraw: int)
    requires InBounds(s)
    requires 0 <= widthDraw < WidthSpan && 0 <= heightDraw < HeightSpan
    ensures RandomSize(s.width - MinWidth, s.height - MinHeight) == s
    ensures RandomSize(widthDraw, heightDraw) == s <==> widthDraw == s.width - MinWidth && heightDraw == s.height - MinHeight
  {
  }

  /** The pool names each tag once. */
  lemma TagPoolDistinct()
    ensures Distinct(TagPool)
  {
  }

  /** `s` is an order the pool can be left in by sorting it with a random
      comparator: the pool's length, no repeats, and exactly the pool's tags. */
  predicate IsShuffleOfPool(s: seq<string>) {
    |s| == |TagPool| && Distinct(s) &&
    (forall t :: t in s ==> t in TagPool) && (forall t :: t in TagPool ==> t in s)
  }

  /** The shuffles of the pool are exactly its permutations. */
  lemma ShuffleIsPermutation(s: seq<string>)
    ensures IsShuffleOfPool(s) <==> multiset(s) == multiset(TagPool)
  {
    TagPoolDistinct();
    DistinctPermutation(TagPool, s);
  }

  /** The tags `getRandomTags` returns once the shuffle has left the pool in
      order `shuffled` and `Math.floor(Math.random() * 4)` gave `countDraw`:
      the first `countDraw + 1` tags. */
  function DrawnTags(shuffled: seq<string>, countDraw: int): (tags: seq<string>)
    requires IsShuffleOfPool(shuffled) && 0 <= countDraw < MaxTags
    ensures 1 <= |tags| <= MaxTags && |tags| == countDraw + 1
    ensures tags <= shuffled
    ensures Distinct(tags)
    ensures forall t :: t in tags ==> t in TagPool
  {
    shuffled[..countDraw + 1]
  }

  /** Conversely, every duplicate-free choice of one to four pool tags is
      the result of some shuffle and some count draw. */
  lemma DrawnTagsReachesEveryChoice(tags: seq<string>)
    requires 1 <= |tags| <= MaxTags && Distinct(tags)
    requires forall t :: t in tags ==> t in TagPool
    ensures IsShuffleOfPool(tags + Without(TagPool, tags))
    ensures DrawnTags(tags + Without(TagPool, tags), |tags| - 1) == tags
  {
    TagPoolDistinct();
    SelectionThenRest(TagPool, tags);
    var shuffled := tags + Without(TagPool, tags);
    assert shuffled[..|tags|] == tags;
  }

  /** `getRandomTags`: sorts the shared `pool` array in place with a random
      comparator, which leaves it in the order `shuffled`, then returns its
      first `countDraw + 1` tags. The array keeps the shuffled order for the
      next call. */
  method GetRandomTags(pool: array<string>, shuffled: seq<string>, countDraw: int) returns (tags: seq<string>)
    requires IsShuffleOfPool(pool[..])
    requires IsShuffleOfPool(shuffled)
    requires 0 <= countDraw < MaxTags
    modifies pool
    ensures pool[..] == shuffled && IsShuffleOfPool(pool[..])
    ensures tags == DrawnTags(shuffled, countDraw)
  {
    forall i | 0 <= i < pool.Length {
      pool[i] := shuffled[i];
    }
    tags := pool[..countDraw + 1];
  }
}
