// do_merge_fw of start_build.py (the buffer it builds): images are written into a flash image by Python slice
// assignments whose end is the size of the file rather than the end of its place.
module ImageMerge {
  type Bytes = seq<bv8>

  /** One entry of fw_list with its entry of offset_list. */
  datatype Image = Image(content: Bytes, offset: nat) {
    function End(): nat { offset + |content| }
  }

  datatype Outcome = Written(bytes: Bytes) | IndexError

  function Min(a: nat, b: nat): nat { if a < b then a else b }

  function Max(a: nat, b: nat): nat { if a < b then b else a }

  /** buf[lo:hi] = v on a bytearray: the bounds are clipped, an empty range inserts, and the length may change. */
  function SliceAssign(buf: Bytes, lo: nat, hi: nat, v: Bytes): Bytes {
    var start := Min(lo, |buf|);
    var stop := Max(start, Min(hi, |buf|));
    buf[..start] + v + buf[stop..]
  }

  function Place(buf: Bytes, image: Image): Bytes {
    SliceAssign(buf, image.offset, |image.content|, image.content)
  }

  function Blank(n: nat): (b: Bytes)
    ensures |b| == n && forall k | 0 <= k < n :: b[k] == 0xFF
  {
    seq(n, _ => 0xFF)
  }

  /** The size the program computes: where the last image of the list ends. */
  function FinalSize(images: seq<Image>): nat
    requires 0 < |images|
  {
    images[|images| - 1].End()
  }

  /** The growing buffer after the given images. */
  function Placed(size: nat, images: seq<Image>): Bytes {
    if |images| == 0 then Blank(size) else Place(Placed(size, images[..|images| - 1]), images[|images| - 1])
  }

  function Output(images: seq<Image>): Bytes
    requires 0 < |images|
  {
    var buf := Placed(FinalSize(images), images);
    buf[..Min(FinalSize(images), |buf|)]
  }

  method DoMergeFw(images: seq<Image>) returns (r: Outcome)
    ensures r == if images == [] then IndexError else Written(Output(images))
    ensures images != [] && Mergeable(images) ==> Merged(images, r.bytes)
  {
    if |images| == 0 {
      return IndexError;
    }
    var finalSize := FinalSize(images);
    var buf := Blank(finalSize);
    for i := 0 to |images|
      invariant buf == Placed(finalSize, images[..i])
    {
      assert images[..i + 1][..i] == images[..i];
      var content := images[i].content;
      buf := SliceAssign(buf, images[i].offset, |content|, content);
    }
    assert images[..|images|] == images;
    if Mergeable(images) {
      OutputMerged(images);
    }
    return Written(buf[..Min(finalSize, |buf|)]);
  }

  // --- what the output should be ---

  /** Each image starts at or after the end of the one before it in the list. */
  predicate Ascending(images: seq<Image>) {
    forall i | 0 < i < |images| :: images[i - 1].End() <= images[i].offset
  }

  /** Image i stays where it is when image j is placed: j is above it, or at offset 0 and below it. */
  predicate Undisturbed(i: Image, j: Image) {
    i.content == [] || j.content == [] || i.End() <= j.offset || (j.offset == 0 && j.End() <= i.offset)
  }

  /** No image reaches beyond the end of the last one, and no image disturbs an earlier one. */
  predicate Mergeable(images: seq<Image>)
    requires 0 < |images|
  {
    && (forall i | 0 <= i < |images| :: images[i].End() <= FinalSize(images))
    && (forall i, j | 0 <= i < j < |images| :: Undisturbed(images[i], images[j]))
  }

  ghost predicate Covers(images: seq<Image>, k: nat) {
    exists i | 0 <= i < |images| :: images[i].offset <= k < images[i].End()
  }

  ghost predicate Holds(images: seq<Image>, b: Bytes) {
    && (forall i | 0 <= i < |images| :: images[i].End() <= |b| && b[images[i].offset..images[i].End()] == images[i].content)
    && (forall k: nat | k < |b| && !Covers(images, k) :: b[k] == 0xFF)
  }

  /** The whole flash image: it ends with the last image, holds each image in its place, and 0xFF elsewhere. */
  ghost predicate Merged(images: seq<Image>, b: Bytes)
    requires 0 < |images|
  {
    var last := images[|images| - 1];
    |b| == last.offset + |last.content| && Holds(images, b)
  }

  lemma {:induction false} EndsAscend(images: seq<Image>, i: nat, j: nat)
    requires Ascending(images) && i <= j < |images|
    ensures images[i].End() <= images[j].End()
    decreases j
  {
    if i < j {
      EndsAscend(images, i, j - 1);
    }
  }

  /** The image is in its place, what was below it is kept, and what was above its slice is moved up. */
  ghost predicate PlacedOver(buf: Bytes, r: Bytes, image: Image) {
    var shift := Min(|image.content|, image.offset);
    && image.End() <= |buf| && |r| == |buf| + shift
    && r[..image.offset] == buf[..image.offset]
    && r[image.offset..image.End()] == image.content
    && r[image.End()..] == buf[image.End() - shift..]
  }

  /** However the end of the slice is computed, placing an image keeps what is below it and moves only what is above. */
  lemma {:induction false} PlaceKeepsBelow(buf: Bytes, image: Image)
    requires image.End() <= |buf|
    ensures PlacedOver(buf, Place(buf, image), image)
  {
    assert Max(image.offset, |image.content|) == image.End() - Min(|image.content|, image.offset);
  }

  /** The slice assignment in every case: an image beyond the end of the buffer is just appended to it. */
  lemma {:induction false} PlaceAnywhere(buf: Bytes, image: Image)
    ensures var (offset, size) := (image.offset, |image.content|);
      Place(buf, image) ==
        if |buf| <= offset then buf + image.content
        else if size <= offset then buf[..offset] + image.content + buf[offset..]
        else if size <= |buf| then buf[..offset] + image.content + buf[size..]
        else buf[..offset] + image.content
  {}

  lemma {:induction false} CoversMore(images: seq<Image>, image: Image, k: nat)
    ensures !Covers(images + [image], k) ==> !Covers(images, k)
  {
    if Covers(images, k) {
      var i :| 0 <= i < |images| && images[i].offset <= k < images[i].End();
      assert (images + [image])[i] == images[i];
    }
  }

  /** Placing an image that disturbs none of the others keeps the layout: all that is moved up is blank. */
  lemma {:induction false} PlaceHolds(buf: Bytes, images: seq<Image>, image: Image)
    requires Holds(images, buf) && image.End() <= |buf|
    requires forall i | 0 <= i < |images| :: Undisturbed(images[i], image)
    ensures Holds(images + [image], Place(buf, image)) && |buf| <= |Place(buf, image)|
  {
    var (r, all) := (Place(buf, image), images + [image]);
    PlaceKeepsBelow(buf, image);
    hide Place, Holds;
    forall i | 0 <= i < |all|
      ensures all[i].End() <= |r| && r[all[i].offset..all[i].End()] == all[i].content
    {
      if i < |images| {
        HoldsOne(images, buf, i);
        KeptInPlace(buf, r, images[i], image);
      }
    }
    forall k: nat | k < |r| && !Covers(all, k)
      ensures r[k] == 0xFF
    {
      BlankStaysBlank(buf, r, images, image, k);
    }
    HoldsAll(all, r);
  }

  lemma {:induction false} SliceOfTake(s: Bytes, n: nat, i: nat, j: nat)
    requires i <= j <= n <= |s|
    ensures s[i..j] == s[..n][i..j]
  {}

  lemma {:induction false} SliceOfDrop(s: Bytes, e: nat, i: nat, n: nat)
    requires e <= i && i + n <= |s|
    ensures s[i..i + n] == s[e..][i - e..i - e + n]
  {}

  lemma {:induction false} KeptInPlace(buf: Bytes, r: Bytes, earlier: Image, image: Image)
    requires PlacedOver(buf, r, image) && Undisturbed(earlier, image)
    requires earlier.End() <= |buf| && buf[earlier.offset..earlier.End()] == earlier.content
    ensures earlier.End() <= |r| && r[earlier.offset..earlier.End()] == earlier.content
  {
    var e, shift := image.End(), Min(|image.content|, image.offset);
    if earlier.content == [] {
    } else if image.content == [] {
      assert r == r[..image.offset] + r[image.offset..] == buf;
    } else if earlier.End() <= image.offset {
      SliceOfTake(r, image.offset, earlier.offset, earlier.End());
      SliceOfTake(buf, image.offset, earlier.offset, earlier.End());
    } else {
      SliceOfDrop(r, e, earlier.offset, |earlier.content|);
      SliceOfDrop(buf, e, earlier.offset, |earlier.content|);
    }
  }

  lemma {:induction false} BlankStaysBlank(buf: Bytes, r: Bytes, images: seq<Image>, image: Image, k: nat)
    requires PlacedOver(buf, r, image) && k < |r| && !Covers(images + [image], k)
    requires forall i | 0 <= i < |images| :: Undisturbed(images[i], image)
    requires forall q: nat | q < |buf| && !Covers(images, q) :: buf[q] == 0xFF
    ensures r[k] == 0xFF
  {
    assert (images + [image])[|images|] == image;
    assert !(image.offset <= k < image.End());
    CoversMore(images, image, k);
    if k < image.offset {
      assert r[k] == r[..image.offset][k] == buf[k];
    } else {
      var shift := Min(|image.content|, image.offset);
      assert r[k] == r[image.End()..][k - image.End()] == buf[k - shift];
      assert shift > 0 ==> !Covers(images, k - shift);
    }
  }

  lemma {:induction false} HoldsOne(images: seq<Image>, b: Bytes, i: nat)
    requires Holds(images, b) && i < |images|
    ensures images[i].End() <= |b| && b[images[i].offset..images[i].End()] == images[i].content
    ensures forall k: nat | k < |b| && !Covers(images, k) :: b[k] == 0xFF
  {}

  lemma {:induction false} HoldsAll(images: seq<Image>, b: Bytes)
    requires forall i | 0 <= i < |images| ::
      images[i].End() <= |b| && b[images[i].offset..images[i].End()] == images[i].content
    requires forall k: nat | k < |b| && !Covers(images, k) :: b[k] == 0xFF
    ensures Holds(images, b)
  {}

  lemma {:induction false} PlacedHolds(size: nat, images: seq<Image>)
    requires forall i | 0 <= i < |images| :: images[i].End() <= size
    requires forall i, j | 0 <= i < j < |images| :: Undisturbed(images[i], images[j])
    ensures Holds(images, Placed(size, images)) && size <= |Placed(size, images)|
    decreases |images|
  {
    hide Holds, Place, Undisturbed;
    if |images| == 0 {
      BlankHolds(size);
      assert images == [];
    } else {
      var n := |images| - 1;
      var init := images[..n];
      PlacedHolds(size, init);
      PlaceHolds(Placed(size, init), init, images[n]);
      assert init + [images[n]] == images;
    }
  }

  lemma {:induction false} BlankHolds(size: nat)
    ensures Holds([], Blank(size))
  {}

  /** Cutting off blank bytes after the last image keeps the layout. */
  lemma {:induction false} CutHolds(images: seq<Image>, b: Bytes, n: nat)
    requires Holds(images, b) && n <= |b| && forall i | 0 <= i < |images| :: images[i].End() <= n
    ensures Holds(images, b[..n])
  {
    forall i | 0 <= i < |images|
      ensures images[i].End() <= n && b[..n][images[i].offset..images[i].End()] == images[i].content
    {
      assert b[..n][images[i].offset..images[i].End()] == b[images[i].offset..images[i].End()];
    }
  }

  /** For every mergeable list the file is the merged flash image, although the buffer may have outgrown it. */
  lemma {:induction false} OutputMerged(images: seq<Image>)
    requires 0 < |images| && Mergeable(images)
    ensures Merged(images, Output(images))
  {
    hide Holds, Undisturbed;
    PlacedHolds(FinalSize(images), images);
    CutHolds(images, Placed(FinalSize(images), images), FinalSize(images));
  }

  /** The documented use: images listed in ascending order without overlap. */
  lemma {:induction false} AscendingMergeable(images: seq<Image>)
    requires 0 < |images| && Ascending(images)
    ensures Mergeable(images)
  {
    forall i | 0 <= i < |images|
      ensures images[i].End() <= FinalSize(images)
    {
      EndsAscend(images, i, |images| - 1);
    }
    forall i, j | 0 <= i < j < |images|
      ensures Undisturbed(images[i], images[j])
    {
      EndsAscend(images, i, j - 1);
    }
  }

  // --- the order of the list matters ---

  /** An image already placed higher up is moved by an image placed below it, unless that is empty or at offset 0. */
  lemma {:induction false} PlaceMovesAbove(buf: Bytes, image: Image, at: nat, n: nat)
    requires image.End() <= at && at + n <= |buf|
    ensures var shift := Min(|image.content|, image.offset);
            && at + n + shift <= |Place(buf, image)|
            && Place(buf, image)[at + shift..at + n + shift] == buf[at..at + n]
            && (shift == 0 <==> image.content == [] || image.offset == 0)
  {
    var shift := Min(|image.content|, image.offset);
    PlaceKeepsBelow(buf, image);
    var r, e := Place(buf, image), image.End();
    hide Place;
    SliceOfDrop(r, e, at + shift, n);
    SliceOfDrop(buf, e - shift, at, n);
  }

  lemma {:induction false} Misplaced(images: seq<Image>, b: Bytes, i: nat, k: nat)
    requires i < |images| && images[i].offset <= k < images[i].End() && k < |b|
    requires b[k] != images[i].content[k - images[i].offset]
    ensures !Holds(images, b)
  {
    if images[i].End() <= |b| {
      assert b[images[i].offset..images[i].End()][k - images[i].offset] == b[k];
    }
  }

  // --- exactly the mergeable lists are merged, whatever their contents ---

  /** The same places, with any contents. */
  predicate SameLayout(images: seq<Image>, others: seq<Image>) {
    |others| == |images| && forall i | 0 <= i < |images| ::
      others[i].offset == images[i].offset && |others[i].content| == |images[i].content|
  }

  const MARK: bv8 := 1

  /** The layout with one marked byte, the first of image i. */
  function Marked(images: seq<Image>, i: nat): (m: seq<Image>)
    requires i < |images| && images[i].content != []
    ensures SameLayout(images, m)
  {
    seq(|images|, q requires 0 <= q < |images| =>
      Image(if q == i then [MARK] + seq(|images[q].content| - 1, _ => 0) else seq(|images[q].content|, _ => 0),
            images[q].offset))
  }

  /** No mark below position p. */
  ghost predicate Clear(b: Bytes, p: nat) { forall k | 0 <= k < |b| && k < p :: b[k] != MARK }

  lemma {:induction false} PlaceClear(buf: Bytes, image: Image, p: nat)
    requires Clear(buf, p) && MARK !in image.content
    ensures Clear(Place(buf, image), p) && |buf| <= |Place(buf, image)|
  {}

  lemma {:induction false} PlaceMark(buf: Bytes, image: Image)
    requires Clear(buf, image.offset) && image.offset <= |buf|
    ensures Clear(Place(buf, image), image.offset)
  {}

  /** Placing a nonempty image at a positive offset below the mark moves the mark up. */
  lemma {:induction false} PlaceMovesMark(buf: Bytes, image: Image, p: nat)
    requires Clear(buf, p) && MARK !in image.content && image.content != [] && 0 < image.offset
    requires image.End() <= p && image.End() <= |buf|
    ensures Clear(Place(buf, image), p + 1)
  {
    PlaceKeepsBelow(buf, image);
    var r, shift := Place(buf, image), Min(|image.content|, image.offset);
    hide Place;
    forall k | 0 <= k < |r| && k < p + 1
      ensures r[k] != MARK
    {
      if k < image.offset {
        assert r[k] == r[..image.offset][k] == buf[k];
      } else if k < image.End() {
        assert r[k] == r[image.offset..image.End()][k - image.offset];
      } else {
        assert r[k] == r[image.End()..][k - image.End()] == buf[k - shift];
      }
    }
  }

  /** Before image i there is no mark at all; from i on there is none below its place; from j on none at its place. */
  lemma {:induction false} MarkRises(size: nat, images: seq<Image>, i: nat, j: nat, n: nat)
    requires i < j < |images| && n <= |images| && !Undisturbed(images[i], images[j])
    requires images[j].End() <= images[i].offset
    requires forall q | 0 <= q < |images| :: images[q].End() <= size
    ensures var b := Placed(size, Marked(images, i)[..n]);
            size <= |b| && Clear(b, images[i].offset + (if n > j then 1 else 0)) && (n <= i ==> Clear(b, |b|))
    decreases n
  {
    hide Place, Clear;
    var m := Marked(images, i);
    if n == 0 {
      NoMark(size, images[i].offset);
    } else {
      MarkRises(size, images, i, j, n - 1);
      assert m[..n][..n - 1] == m[..n - 1];
      var b := Placed(size, m[..n - 1]);
      assert m[n - 1].End() == images[n - 1].End();
      PlaceGrows(b, m[n - 1]);
      if n - 1 == i {
        ClearBelow(b, images[i].offset);
        PlaceMark(b, m[i]);
      } else if n - 1 == j {
        PlaceMovesMark(b, m[j], images[i].offset);
      } else {
        PlaceClear(b, m[n - 1], images[i].offset + (if n > j then 1 else 0));
        if n <= i {
          PlaceClearAll(b, m[n - 1]);
        }
      }
    }
  }

  lemma {:induction false} NoMark(size: nat, p: nat)
    ensures Clear(Placed(size, []), p) && Clear(Placed(size, []), size)
  {}

  lemma {:induction false} ClearBelow(b: Bytes, p: nat)
    requires Clear(b, |b|)
    ensures Clear(b, p)
  {}

  lemma {:induction false} PlaceGrows(buf: Bytes, image: Image)
    ensures |buf| <= |Place(buf, image)|
  {}

  lemma {:induction false} PlaceClearAll(buf: Bytes, image: Image)
    requires Clear(buf, |buf|) && MARK !in image.content
    ensures Clear(Place(buf, image), |Place(buf, image)|)
  {}

  /** A list with an image moved out of place is not merged for marked contents. */
  lemma {:induction false} MovedNotMerged(images: seq<Image>, i: nat, j: nat)
    requires i < j < |images| && !Undisturbed(images[i], images[j]) && images[j].End() <= images[i].offset
    requires forall q | 0 <= q < |images| :: images[q].End() <= FinalSize(images)
    ensures var m := Marked(images, i); !Merged(m, Output(m))
  {
    hide Holds, Placed;
    var m := Marked(images, i);
    MarkRises(FinalSize(images), images, i, j, |images|);
    assert m[..|images|] == m;
    Misplaced(m, Output(m), i, images[i].offset);
  }

  /** Two images that overlap cannot both be in place when their contents differ there. */
  lemma {:induction false} OverlapNotMerged(images: seq<Image>, i: nat, j: nat)
    requires i < j < |images| && images[i].content != [] && images[j].content != []
    requires images[i].offset < images[j].End() && images[j].offset < images[i].End()
    ensures exists others :: SameLayout(images, others) && !Merged(others, Output(others))
  {
    hide Output, Merged;
    var others := seq(|images|, q requires 0 <= q < |images| =>
      Image(seq(|images[q].content|, _ => if q == i then 0 else 1), images[q].offset));
    assert SameLayout(images, others);
    BothNotHeld(others, Output(others), i, j, Max(images[i].offset, images[j].offset));
  }

  lemma {:induction false} BothNotHeld(images: seq<Image>, b: Bytes, i: nat, j: nat, k: nat)
    requires i < |images| && j < |images|
    requires images[i].offset <= k < images[i].End() && images[j].offset <= k < images[j].End()
    requires images[i].content[k - images[i].offset] != images[j].content[k - images[j].offset]
    ensures !Merged(images, b)
  {
    if k < |b| {
      if b[k] != images[i].content[k - images[i].offset] {
        Misplaced(images, b, i, k);
      } else {
        Misplaced(images, b, j, k);
      }
    }
  }

  /** A list of images is merged correctly whatever the images contain, if and only if it is mergeable. */
  lemma {:induction false} MergedExactly(images: seq<Image>)
    requires 0 < |images|
    ensures Mergeable(images) <==>
            forall others | SameLayout(images, others) :: Merged(others, Output(others))
  {
    hide Output, Merged;
    if Mergeable(images) {
      forall others | SameLayout(images, others)
        ensures Merged(others, Output(others))
      {
        LayoutMergeable(images, others);
        OutputMerged(others);
      }
    } else if i :| 0 <= i < |images| && images[i].End() > FinalSize(images) {
      TooLong(images, Output(images), i);
      assert SameLayout(images, images);
    } else {
      var i, j :| 0 <= i < j < |images| && !Undisturbed(images[i], images[j]);
      if images[j].End() <= images[i].offset {
        MovedNotMerged(images, i, j);
        assert SameLayout(images, Marked(images, i));
      } else {
        OverlapNotMerged(images, i, j);
      }
    }
  }

  lemma {:induction false} TooLong(images: seq<Image>, b: Bytes, i: nat)
    requires i < |images| && images[i].End() > FinalSize(images)
    ensures !Merged(images, b)
  {}

  lemma {:induction false} LayoutMergeable(images: seq<Image>, others: seq<Image>)
    requires 0 < |images| && Mergeable(images) && SameLayout(images, others)
    ensures Mergeable(others)
  {
    assert FinalSize(others) == FinalSize(images);
    forall i, j | 0 <= i < j < |others|
      ensures Undisturbed(others[i], others[j])
    {
      assert Undisturbed(images[i], images[j]);
    }
  }

  /** Three images that do not overlap, listed out of order: the first one does not end up in its place. */
  lemma {:induction false} OutOfOrderFails()
    ensures !Merged([Image([1], 4), Image([2], 1), Image([3], 6)], Output([Image([1], 4), Image([2], 1), Image([3], 6)]))
  {
    var (a, b, c) := (Image([1], 4), Image([2], 1), Image([3], 6));
    var list := [a, b, c];
    assert list[..2] == [a, b] && [a, b][..1] == [a] && [a][..0] == [];
    var p0 := Blank(7);
    var p1 := Place(p0, a);
    var p2 := Place(p1, b);
    var p3 := Place(p2, c);
    assert Placed(7, []) == p0;
    assert Placed(7, [a]) == p1;
    assert Placed(7, [a, b]) == p2;
    assert Placed(7, list) == p3;
    PlaceKeepsBelow(p0, a);
    PlaceKeepsBelow(p1, b);
    PlaceKeepsBelow(p2, c);
    hide Place;
    assert p3[4] == p3[..6][4] == p2[4];
    assert p2[3..][1] == p1[2..][1];
    assert p2[4] == p1[3];
    assert p1[3] == p1[..4][3] == p0[3];
    assert Output(list)[4] == 0xFF;
    Misplaced(list, Output(list), 0, 4);
  }
}
