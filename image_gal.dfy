/** The gallery component's state: an append-only sequence of image records and
    an optional selected tag. Records are created in batches from supplied
    random draws, gain tags one at a time, and are shown filtered by the
    selected tag. The pure transformations behind each state update come
    first; the `Gallery` class holds the state and applies them. */
module ImageGal {
  import opened Seqs
  import opened Generators

  /** Record identifiers, as `crypto.randomUUID()` returns them. */
  type Id = string

  /** The number of records loaded on mount, and by default per later batch. */
  const InitialBatch: nat := 12
  const DefaultBatch: nat := 6

  /** An image record. The placeholder URL is determined by `size`. */
  datatype Image = Image(id: Id, size: Size, tags: seq<string>)

  /** The random inputs that build one record: its fresh id, the two size
      draws, the order the shuffle leaves the tag pool in, and the tag count draw. */
  datatype Draw = Draw(id: Id, widthDraw: int, heightDraw: int, shuffled: seq<string>, countDraw: int)

  /** Draws in the ranges the source's `Math.floor(Math.random() * n)` can yield. */
  predicate ValidDraw(d: Draw) {
    0 <= d.widthDraw < WidthSpan && 0 <= d.heightDraw < HeightSpan &&
    IsShuffleOfPool(d.shuffled) && 0 <= d.countDraw < MaxTags
  }

  predicate ValidDraws(draws: seq<Draw>) {
    forall i :: 0 <= i < |draws| ==> ValidDraw(draws[i])
  }

  /** JavaScript truthiness of a string-or-null value: `null` and `""` are falsy. */
  predicate Truthy(s: Option<string>) {
    s.Some? && s.value != ""
  }

  function Ids(images: seq<Image>): seq<Id> {
    seq(|images|, i requires 0 <= i < |images| => images[i].id)
  }

  function DrawIds(draws: seq<Draw>): seq<Id> {
    seq(|draws|, i requires 0 <= i < |draws| => draws[i].id)
  }

  /** What holds of every record from its creation on: a size in bounds and a
      non-empty, duplicate-free tag list. */
  predicate ValidImage(img: Image) {
    InBounds(img.size) && |img.tags| >= 1 && Distinct(img.tags)
  }

  /** The gallery invariant: ids are unique and every record is valid. */
  predicate ValidImages(images: seq<Image>) {
    Distinct(Ids(images)) && forall i :: 0 <= i < |images| ==> ValidImage(images[i])
  }

  // ---------------------------------------------------------------------
  // Loading

  /** The record the batch factory builds from one draw. */
  function ImageOf(d: Draw): (img: Image)
    requires ValidDraw(d)
    ensures img.id == d.id && ValidImage(img)
    ensures |img.tags| <= MaxTags && forall t :: t in img.tags ==> t in TagPool
  {
    Image(d.id, RandomSize(d.widthDraw, d.heightDraw), DrawnTags(d.shuffled, d.countDraw))
  }

  /** The batch `Array.from({ length: count }, ...)` builds: one record per draw. */
  function Batch(draws: seq<Draw>): (batch: seq<Image>)
    requires ValidDraws(draws)
    ensures |batch| == |draws| && Ids(batch) == DrawIds(draws)
    ensures forall i :: 0 <= i < |batch| ==> ValidImage(batch[i])
  {
    seq(|draws|, i requires 0 <= i < |draws| => ImageOf(draws[i]))
  }

  /** Every new id is distinct from the others and from every existing id. */
  predicate FreshIds(images: seq<Image>, draws: seq<Draw>) {
    Distinct(Ids(images) + DrawIds(draws))
  }

  lemma IdsAppend(a: seq<Image>, b: seq<Image>)
    ensures Ids(a + b) == Ids(a) + Ids(b)
  {
  }

  /** Appending a batch built with fresh ids keeps the gallery invariant. */
  lemma LoadKeepsValid(images: seq<Image>, draws: seq<Draw>)
    requires ValidImages(images) && ValidDraws(draws) && FreshIds(images, draws)
    ensures ValidImages(images + Batch(draws))
  {
    var all := images + Batch(draws);
    IdsAppend(images, Batch(draws));
    forall i | 0 <= i < |all| ensures ValidImage(all[i]) {
      if i >= |images| {
        assert all[i] == Batch(draws)[i - |images|];
      }
    }
  }

  /** The batch factory of `loadMoreImages`: one record per draw, in order,
      the tag draw of each shuffling the shared pool again, so that the pool
      is left in the order of the last draw. */
  method NewBatch(pool: array<string>, draws: seq<Draw>) returns (batch: seq<Image>)
    requires IsShuffleOfPool(pool[..]) && ValidDraws(draws)
    modifies pool
    ensures batch == Batch(draws)
    ensures IsShuffleOfPool(pool[..])
    ensures pool[..] == if draws == [] then old(pool[..]) else draws[|draws| - 1].shuffled
  {
    batch := [];
    var i := 0;
    while i < |draws|
      invariant 0 <= i <= |draws|
      invariant |batch| == i && forall k :: 0 <= k < i ==> batch[k] == ImageOf(draws[k])
      invariant IsShuffleOfPool(pool[..])
      invariant pool[..] == if i == 0 then old(pool[..]) else draws[i - 1].shuffled
    {
      var d := draws[i];
      assert ValidDraw(d);
      var size := RandomSize(d.widthDraw, d.heightDraw);
      var tags := GetRandomTags(pool, d.shuffled, d.countDraw);
      batch := batch + [Image(d.id, size, tags)];
      i := i + 1;
    }
  }

  // ---------------------------------------------------------------------
  // Adding a tag

  /** `[...new Set([...tags, tag])]`: the tags in insertion order without repeats. */
  function WithTag(tags: seq<string>, tag: string): (r: seq<string>)
    ensures Distinct(r) && |r| >= 1
    ensures forall t :: t in r <==> t in tags || t == tag
  {
    Dedup(tags + [tag])
  }

  /** On a duplicate-free tag list, adding a tag keeps the old tags in their
      order and appends the new one exactly when it is absent. */
  lemma WithTagAppendsIfAbsent(tags: seq<string>, tag: string)
    requires Distinct(tags)
    ensures WithTag(tags, tag) == if tag in tags then tags else tags + [tag]
  {
    DedupSnoc(tags, tag);
    DedupOfDistinct(tags);
  }

  /** Adding the same tag twice gives the same list as adding it once. */
  lemma WithTagIdempotent(tags: seq<string>, tag: string)
    ensures WithTag(WithTag(tags, tag), tag) == WithTag(tags, tag)
  {
    var once := WithTag(tags, tag);
    WithTagAppendsIfAbsent(once, tag);
  }

  /** The record after `addTag`'s `map` callback. */
  function Retag(img: Image, id: Id, tag: string): Image {
    if img.id == id then img.(tags := WithTag(img.tags, tag)) else img
  }

  /** The image list after `addTag`: each record whose id matches gets the tag,
      every other record is left as it was, and nothing moves. */
  function AddTagTo(images: seq<Image>, id: Id, tag: string): (r: seq<Image>)
    ensures |r| == |images| && Ids(r) == Ids(images)
    ensures forall i :: 0 <= i < |images| ==>
      r[i].id == images[i].id && r[i].size == images[i].size
    ensures forall i :: 0 <= i < |images| && images[i].id != id ==> r[i] == images[i]
    ensures forall i :: 0 <= i < |images| && images[i].id == id ==>
      r[i].tags == WithTag(images[i].tags, tag)
  {
    seq(|images|, i requires 0 <= i < |images| => Retag(images[i], id, tag))
  }

  /** An id that matches no record leaves the whole list unchanged. */
  lemma AddTagUnknownId(images: seq<Image>, id: Id, tag: string)
    requires id !in Ids(images)
    ensures AddTagTo(images, id, tag) == images
  {
    forall i | 0 <= i < |images| ensures AddTagTo(images, id, tag)[i] == images[i] {
      assert Ids(images)[i] == images[i].id;
    }
  }

  /** Adding a tag twice to the same record is the same as adding it once. */
  lemma AddTagIdempotent(images: seq<Image>, id: Id, tag: string)
    ensures AddTagTo(AddTagTo(images, id, tag), id, tag) == AddTagTo(images, id, tag)
  {
    var once := AddTagTo(images, id, tag);
    forall i | 0 <= i < |images| ensures AddTagTo(once, id, tag)[i] == once[i] {
      if images[i].id == id {
        WithTagIdempotent(images[i].tags, tag);
      }
    }
  }

  /** Adding a tag keeps the gallery invariant: ids are untouched and the
      changed tag list stays non-empty and duplicate-free. */
  lemma AddTagKeepsValid(images: seq<Image>, id: Id, tag: string)
    requires ValidImages(images)
    ensures ValidImages(AddTagTo(images, id, tag))
  {
    var r := AddTagTo(images, id, tag);
    forall i | 0 <= i < |r| ensures ValidImage(r[i]) {
      assert ValidImage(images[i]);
    }
  }

  /** With unique ids, the one matching record's tags become its old tags,
      in order, followed by `tag` if it was not already there. */
  lemma AddTagToMatchingRecord(images: seq<Image>, i: nat, tag: string)
    requires ValidImages(images) && i < |images|
    ensures var r := AddTagTo(images, images[i].id, tag);
      r[i].tags == (if tag in images[i].tags then images[i].tags else images[i].tags + [tag]) &&
      forall j :: 0 <= j < |images| && j != i ==> r[j] == images[j]
  {
    assert ValidImage(images[i]);
    WithTagAppendsIfAbsent(images[i].tags, tag);
    forall j | 0 <= j < |images| && j != i ensures images[j].id != images[i].id {
      assert Ids(images)[i] == images[i].id && Ids(images)[j] == images[j].id;
    }
  }

  // ---------------------------------------------------------------------
  // Filtering

  /** `images.filter((img) => img.tags.includes(tag))`. */
  function FilterByTag(images: seq<Image>, tag: string): (r: seq<Image>)
    ensures |r| <= |images|
    ensures forall img :: img in r <==> img in images && tag in img.tags
  {
    if images == [] then []
    else (if tag in images[0].tags then [images[0]] else []) + FilterByTag(images[1..], tag)
  }

  /** The filter keeps the records it selects in their original relative order. */
  lemma {:induction false} FilterIsSubsequence(images: seq<Image>, tag: string)
    ensures IsSubsequence(FilterByTag(images, tag), images)
  {
    if images != [] {
      FilterIsSubsequence(images[1..], tag);
      var rest := FilterByTag(images[1..], tag);
      if tag in images[0].tags {
        assert ([images[0]] + rest)[1..] == rest;
      } else {
        // the first record kept, if any, carries the tag, so it is not images[0]
        assert FilterByTag(images, tag) == rest;
        assert rest != [] ==> rest[0] in rest && rest[0] != images[0];
      }
    }
  }

  /** Filtering distributes over concatenation: records are judged one at a
      time, each by its own tags. */
  lemma {:induction false} FilterAppend(a: seq<Image>, b: seq<Image>, tag: string)
    ensures FilterByTag(a + b, tag) == FilterByTag(a, tag) + FilterByTag(b, tag)
  {
    if a != [] {
      var head := if tag in a[0].tags then [a[0]] else [];
      var ab := a + b;
      assert ab[0] == a[0] && ab[1..] == a[1..] + b;
      FilterAppend(a[1..], b, tag);
      calc {
        FilterByTag(ab, tag);
        head + FilterByTag(a[1..] + b, tag);
        head + (FilterByTag(a[1..], tag) + FilterByTag(b, tag));
        (head + FilterByTag(a[1..], tag)) + FilterByTag(b, tag);
        FilterByTag(a, tag) + FilterByTag(b, tag);
      }
    } else {
      assert a + b == b;
    }
  }

  /** Adding a tag other than the selected one commutes with filtering: the
      records that are shown stay the same records, updated in place. */
  lemma {:induction false} FilterCommutesWithAddTag(images: seq<Image>, id: Id, added: string, tag: string)
    requires added != tag
    ensures FilterByTag(AddTagTo(images, id, added), tag) == AddTagTo(FilterByTag(images, tag), id, added)
  {
    if images != [] {
      var first, rest := images[0], images[1..];
      var retagged := Retag(first, id, added);
      // the added tag is not the selected one, so the record is kept or dropped as before
      assert tag in retagged.tags <==> tag in first.tags;
      assert images == [first] + rest;
      AddTagAppend([first], rest, id, added);
      assert AddTagTo(images, id, added) == [retagged] + AddTagTo(rest, id, added);
      FilterCommutesWithAddTag(rest, id, added, tag);
      var kept := if tag in first.tags then [first] else [];
      assert FilterByTag(images, tag) == kept + FilterByTag(rest, tag);
      assert ([retagged] + AddTagTo(rest, id, added))[1..] == AddTagTo(rest, id, added);
      assert FilterByTag(AddTagTo(images, id, added), tag)
          == AddTagTo(kept, id, added) + FilterByTag(AddTagTo(rest, id, added), tag);
      AddTagAppend(kept, FilterByTag(rest, tag), id, added);
    }
  }

  /** Tagging works record by record, so it distributes over concatenation. */
  lemma AddTagAppend(a: seq<Image>, b: seq<Image>, id: Id, tag: string)
    ensures AddTagTo(a + b, id, tag) == AddTagTo(a, id, tag) + AddTagTo(b, id, tag)
  {
    var l, r := AddTagTo(a + b, id, tag), AddTagTo(a, id, tag) + AddTagTo(b, id, tag);
    forall i | 0 <= i < |a + b| ensures l[i] == r[i] {
      if i < |a| {
        assert (a + b)[i] == a[i];
      } else {
        assert (a + b)[i] == b[i - |a|];
      }
    }
  }

  // ---------------------------------------------------------------------
  // The component's state

  class Gallery {
    /** The module-level tag pool, which every tag draw shuffles in place. */
    const pool: array<string>
    var images: seq<Image>
    var selectedTag: Option<string>

    ghost predicate Valid()
      reads this, pool
    {
      ValidImages(images) && IsShuffleOfPool(pool[..])
    }

    /** `useState([])` and `useState(null)`; the pool may be in whatever order
        earlier draws left it. */
    constructor (pool: array<string>)
      requires IsShuffleOfPool(pool[..])
      ensures Valid() && this.pool == pool
      ensures images == [] && selectedTag == None
    {
      this.pool := pool;
      images := [];
      selectedTag := None;
    }

    /** `loadMoreImages(count)`: builds a batch of `count` records and
        appends it, keeping the records already there as a prefix. */
    method LoadMoreImages(draws: seq<Draw>, count: nat := DefaultBatch)
      requires Valid() && |draws| == count && ValidDraws(draws)
      requires FreshIds(images, draws)
      modifies this, pool
      ensures Valid()
      ensures images == old(images) + Batch(draws)
      ensures |images| == |old(images)| + count && old(images) <= images
      ensures selectedTag == old(selectedTag)
      ensures pool[..] == if count == 0 then old(pool[..]) else draws[count - 1].shuffled
    {
      var newImages := NewBatch(pool, draws);
      LoadKeepsValid(images, draws);
      images := images + newImages;
    }

    /** The mount effect: `loadMoreImages(12)`. */
    method Mount(draws: seq<Draw>)
      requires Valid() && |draws| == InitialBatch && ValidDraws(draws)
      requires FreshIds(images, draws)
      modifies this, pool
      ensures Valid()
      ensures images == old(images) + Batch(draws)
      ensures selectedTag == old(selectedTag)
      ensures pool[..] == draws[InitialBatch - 1].shuffled
    {
      LoadMoreImages(draws, InitialBatch);
    }

    /** `addTag(id)` with `input` the answer to the prompt, `None` if it was
        cancelled. A falsy answer changes nothing. */
    method AddTag(id: Id, input: Option<string>)
      requires Valid()
      modifies this
      ensures Valid()
      ensures images == if Truthy(input) then AddTagTo(old(images), id, input.value) else old(images)
      ensures selectedTag == old(selectedTag)
    {
      if Truthy(input) {
        AddTagKeepsValid(images, id, input.value);
        images := AddTagTo(images, id, input.value);
      }
    }

    /** `filteredImages`, what the grid shows: every record while no tag is
        selected, otherwise exactly the records carrying the selected tag, in
        their original relative order. */
    function FilteredImages(): (r: seq<Image>)
      reads this
      ensures !Truthy(selectedTag) ==> r == images
      ensures Truthy(selectedTag) ==>
        IsSubsequence(r, images) &&
        forall img :: img in r <==> img in images && selectedTag.value in img.tags
    {
      if Truthy(selectedTag) then
        FilterIsSubsequence(images, selectedTag.value);
        FilterByTag(images, selectedTag.value)
      else images
    }

    /** `handleTagClick(tag)`; the scroll to the top is left out. */
    method HandleTagClick(tag: string)
      requires Valid()
      modifies this
      ensures Valid()
      ensures selectedTag == Some(tag) && images == old(images)
    {
      selectedTag := Some(tag);
    }

    /** The `clearFilter` callback, `() => setSelectedTag(null)`. */
    method ClearFilter()
      requires Valid()
      modifies this
      ensures Valid()
      ensures selectedTag == None && images == old(images)
      ensures old(selectedTag) == None ==> unchanged(this)
    {
      selectedTag := None;
    }
  }

  /** A usage scenario: mounting loads 12 records and one more batch
      brings the total to 18 with the first 12 unchanged; after selecting a
      tag and clearing it again the full list is shown. */
  method LoadScenario(pool: array<string>, first: seq<Draw>, more: seq<Draw>, tag: string) returns (g: Gallery)
    requires IsShuffleOfPool(pool[..])
    requires |first| == InitialBatch && |more| == DefaultBatch
    requires ValidDraws(first) && ValidDraws(more)
    requires Distinct(DrawIds(first) + DrawIds(more))
    modifies pool
    ensures fresh(g) && g.Valid()
    ensures |g.images| == 18 && g.images[..12] == Batch(first)
    ensures g.FilteredImages() == g.images
  {
    g := new Gallery(pool);
    ghost var firstIds := DrawIds(first);
    DistinctSplit(firstIds, DrawIds(more));
    assert Ids(g.images) + firstIds == firstIds;
    g.Mount(first);
    assert g.images == Batch(first);
    g.LoadMoreImages(more);
    assert g.images == Batch(first) + Batch(more);
    g.HandleTagClick(tag);
    g.ClearFilter();
  }
}
