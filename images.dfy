/** The image tests of tests/dom-check.test.js. The first test gathers every
    `<img>` of every document, derives each one's path, asks the decoder for
    its intrinsic size and records it; the three tests after it read only
    those records. Decoding image files is not part of this model: the
    decoder is a map from path to size, and a path it lacks is a decode
    failure, which throws. */
module Images {
  import opened Text
  import opened Artifacts

  datatype Dimensions = Dimensions(width: nat, height: nat)

  /** What the image-size decoder yields for each path it can read. */
  type Decoder = map<string, Dimensions>

  /** One entry of the shared image list: the element, its decoded size,
      its derived path and whether its size is compared with the element's. */
  datatype ImageRecord = ImageRecord(
    img: ImgElement,
    dimensions: Dimensions,
    path: string,
    checkDimensions: bool)

  /** The widest image allowed, in pixels. */
  const MaxWidth: nat := 1920

  /** The directory every image path must begin with. */
  const ImageDirectory: string := "images/"

  /** `/^..\//`: two code units other than line terminators, then `/`. The
      two dots consume either two one-unit characters or the two halves of
      one surrogate pair. */
  predicate HasRelativePrefix(src: string) {
    (|src| >= 3 && DotMatches(src[0]) && DotMatches(src[1]) && src[2] == '/')
    || (|src| >= 2 && IsAstral(src[0]) && src[1] == '/')
  }

  /** `src.replace(/^..\//, "")`: drop that prefix once, if present. The
      result is a suffix of the source; it is shorter exactly when the prefix
      was there, and then by three characters, or by two when the dots
      consumed one surrogate pair. */
  function ImagePath(src: string): (path: string)
    ensures |path| <= |src| && src[|src| - |path|..] == path
    ensures |path| < |src| <==> HasRelativePrefix(src)
    ensures |path| < |src| ==> |src| - |path| == if IsAstral(src[0]) then 2 else 3
  {
    if !HasRelativePrefix(src) then src
    else if IsAstral(src[0]) then src[2..]
    else src[3..]
  }

  /** `/[A-Z]|\s/` finds a match in the path. */
  predicate HasUpperOrSpace(path: string) {
    exists k | 0 <= k < |path| :: IsAsciiUpper(path[k]) || IsSpace(path[k])
  }

  /** The hero and svg tests: a path naming `hero` anywhere, or ending in
      `svg` (no dot needed), is exempt from the size comparison. */
  predicate IsExempt(path: string) {
    Contains(path, "hero") || EndsWith(path, "svg")
  }

  function MakeRecord(img: ImgElement, decoder: Decoder): ImageRecord
    requires ImagePath(img.src) in decoder
  {
    var path := ImagePath(img.src);
    ImageRecord(img, decoder[path], path, !IsExempt(path))
  }

  /** An image passes the first test: it decodes and its path has no
      upper-case letter and no whitespace. */
  predicate PathClean(img: ImgElement, decoder: Decoder) {
    ImagePath(img.src) in decoder && !HasUpperOrSpace(ImagePath(img.src))
  }

  /** The records the first test leaves behind. A failing `expect` or a
      decode failure throws out of the loop: an image whose decode fails is
      not recorded and ends the list, an image with a bad path is recorded
      and ends the list. */
  function Records(imgs: seq<ImgElement>, decoder: Decoder): seq<ImageRecord> {
    if imgs == [] then []
    else if ImagePath(imgs[0].src) !in decoder then []
    else [MakeRecord(imgs[0], decoder)]
         + (if HasUpperOrSpace(ImagePath(imgs[0].src)) then [] else Records(imgs[1..], decoder))
  }

  /** Every `<img>` of every document, document by document, in document order. */
  function AllImages(docs: seq<Document>): seq<ImgElement> {
    if docs == [] then [] else AllImages(docs[..|docs| - 1]) + docs[|docs| - 1].images
  }

  /** Lines 80-83: `imgs = imgs.concat(...)` for each document. */
  method CollectImages(docs: seq<Document>) returns (imgs: seq<ImgElement>)
    ensures imgs == AllImages(docs)
  {
    imgs := [];
    var d := 0;
    while d < |docs|
      invariant 0 <= d <= |docs|
      invariant imgs == AllImages(docs[..d])
    {
      assert docs[..d + 1][..d] == docs[..d];
      imgs := imgs + docs[d].images;
      d := d + 1;
    }
    assert docs[..|docs|] == docs;
  }

  /** Lines 90-101: derive each path, decode it, push the record, then expect
      a clean path. `passed` is the first test's verdict; `images` is what
      the later tests see. */
  method BuildImageRecords(imgs: seq<ImgElement>, decoder: Decoder)
    returns (images: seq<ImageRecord>, passed: bool)
    ensures images == Records(imgs, decoder)
    ensures passed <==> forall k | 0 <= k < |imgs| :: PathClean(imgs[k], decoder)
  {
    images := [];
    passed := true;
    var i := 0;
    while i < |imgs|
      invariant 0 <= i <= |imgs|
      invariant forall k | 0 <= k < i :: PathClean(imgs[k], decoder)
      invariant Records(imgs, decoder) == images + Records(imgs[i..], decoder)
    {
      var path := ImagePath(imgs[i].src);
      if path !in decoder {
        // sizeOf throws before the push
        StopBeforePush(imgs, decoder, i, images);
        passed := false;
        break;
      }
      var record := MakeRecord(imgs[i], decoder);
      if !PathClean(imgs[i], decoder) {
        // the path decoded, so this is the `[A-Z]|\s` match: the expect after the push throws
        StopAfterPush(imgs, decoder, i, images);
        images := images + [record];
        passed := false;
        break;
      }
      RecordsContinue(imgs, decoder, i, images);
      images := images + [record];
      i := i + 1;
    }
    if passed {
      assert imgs[i..] == [];
    }
  }

  /** An image that does not decode ends the list before its own record. */
  lemma StopBeforePush(imgs: seq<ImgElement>, decoder: Decoder, i: nat, done: seq<ImageRecord>)
    requires i < |imgs| && ImagePath(imgs[i].src) !in decoder
    ensures done + Records(imgs[i..], decoder) == done
    ensures !PathClean(imgs[i], decoder)
  {
    assert imgs[i..][0] == imgs[i];
  }

  /** An image that decodes but has a bad path ends the list after its own record. */
  lemma StopAfterPush(imgs: seq<ImgElement>, decoder: Decoder, i: nat, done: seq<ImageRecord>)
    requires i < |imgs| && ImagePath(imgs[i].src) in decoder && !PathClean(imgs[i], decoder)
    ensures done + Records(imgs[i..], decoder) == done + [MakeRecord(imgs[i], decoder)]
  {
    assert imgs[i..][0] == imgs[i];
  }

  /** A clean image contributes its record and the list goes on after it. */
  lemma RecordsContinue(imgs: seq<ImgElement>, decoder: Decoder, i: nat, done: seq<ImageRecord>)
    requires i < |imgs| && PathClean(imgs[i], decoder)
    ensures done + Records(imgs[i..], decoder)
      == (done + [MakeRecord(imgs[i], decoder)]) + Records(imgs[i + 1..], decoder)
  {
    assert imgs[i..][0] == imgs[i] && imgs[i..][1..] == imgs[i + 1..];
  }

  /** The width test: every recorded image is at most 1920 pixels wide. */
  predicate WidthsBounded(images: seq<ImageRecord>) {
    forall r | r in images :: r.dimensions.width <= MaxWidth
  }

  /** The directory test: every recorded path begins with `images/`. */
  predicate InImageDirectory(images: seq<ImageRecord>) {
    forall r | r in images :: StartsWith(r.path, ImageDirectory)
  }

  /** The size test: every recorded image that is not exempt reports exactly
      its decoded width and height. */
  predicate DimensionsMatch(images: seq<ImageRecord>) {
    forall r | r in images :: r.checkDimensions ==>
      r.img.width == r.dimensions.width && r.img.height == r.dimensions.height
  }

  /** What the four image tests ask of one `<img>`, stated on its own. */
  predicate ImageConforms(img: ImgElement, decoder: Decoder) {
    var path := ImagePath(img.src);
    path in decoder
    && !HasUpperOrSpace(path)
    && StartsWith(path, ImageDirectory)
    && decoder[path].width <= MaxWidth
    && (IsExempt(path)
        || (img.width == decoder[path].width && img.height == decoder[path].height))
  }

  /** The records follow the elements one for one, up to where the list stops. */
  lemma {:induction false} RecordsFollowImages(imgs: seq<ImgElement>, decoder: Decoder)
    ensures |Records(imgs, decoder)| <= |imgs|
    ensures forall k | 0 <= k < |Records(imgs, decoder)| ::
      ImagePath(imgs[k].src) in decoder && Records(imgs, decoder)[k] == MakeRecord(imgs[k], decoder)
  {
    if imgs != [] && ImagePath(imgs[0].src) in decoder && !HasUpperOrSpace(ImagePath(imgs[0].src)) {
      RecordsFollowImages(imgs[1..], decoder);
    }
  }

  /** The list stops at the first image that fails the first test: it holds
      every image before it, that image too when it decoded, and nothing after. */
  lemma {:induction false} RecordsStopAtFirstFailure(imgs: seq<ImgElement>, decoder: Decoder, f: nat)
    requires f < |imgs| && !PathClean(imgs[f], decoder)
    requires forall k | 0 <= k < f :: PathClean(imgs[k], decoder)
    ensures |Records(imgs, decoder)| == if ImagePath(imgs[f].src) in decoder then f + 1 else f
  {
    if f > 0 {
      RecordsStopAtFirstFailure(imgs[1..], decoder, f - 1);
    }
  }

  /** When the first test passes, every image is recorded. */
  lemma {:induction false} RecordsComplete(imgs: seq<ImgElement>, decoder: Decoder)
    requires forall k | 0 <= k < |imgs| :: PathClean(imgs[k], decoder)
    ensures |Records(imgs, decoder)| == |imgs|
  {
    if imgs != [] {
      RecordsComplete(imgs[1..], decoder);
    }
  }

  /** What the width, directory and size tests ask of one record. */
  predicate RecordPasses(r: ImageRecord) {
    r.dimensions.width <= MaxWidth && StartsWith(r.path, ImageDirectory)
    && (r.checkDimensions ==> r.img.width == r.dimensions.width && r.img.height == r.dimensions.height)
  }

  /** The width, directory and size tests all pass exactly when every record passes all three. */
  lemma RecordTestsPassIff(images: seq<ImageRecord>)
    ensures (WidthsBounded(images) && InImageDirectory(images) && DimensionsMatch(images))
        <==> forall r | r in images :: RecordPasses(r)
  {
  }

  /** An image with a clean path conforms exactly when its record passes. */
  lemma RecordShowsConformance(img: ImgElement, decoder: Decoder)
    requires PathClean(img, decoder)
    ensures ImageConforms(img, decoder) <==> RecordPasses(MakeRecord(img, decoder))
  {
  }

  /** When all four image tests pass, every image conforms. */
  lemma {:induction false} ImageTestsPassOnlyIfConform(imgs: seq<ImgElement>, decoder: Decoder)
    requires forall k | 0 <= k < |imgs| :: PathClean(imgs[k], decoder)
    requires forall r | r in Records(imgs, decoder) :: RecordPasses(r)
    ensures forall k | 0 <= k < |imgs| :: ImageConforms(imgs[k], decoder)
  {
    var images := Records(imgs, decoder);
    RecordsFollowImages(imgs, decoder);
    RecordsComplete(imgs, decoder);
    forall k | 0 <= k < |imgs| ensures ImageConforms(imgs[k], decoder) {
      assert images[k] in images;
      RecordShowsConformance(imgs[k], decoder);
    }
  }

  /** When every image conforms, all four image tests pass. */
  lemma {:induction false} ConformingImagesPassTests(imgs: seq<ImgElement>, decoder: Decoder)
    requires forall k | 0 <= k < |imgs| :: ImageConforms(imgs[k], decoder)
    ensures forall k | 0 <= k < |imgs| :: PathClean(imgs[k], decoder)
    ensures forall r | r in Records(imgs, decoder) :: RecordPasses(r)
  {
    var images := Records(imgs, decoder);
    RecordsFollowImages(imgs, decoder);
    forall r | r in images ensures RecordPasses(r) {
      var k :| 0 <= k < |images| && images[k] == r;
      RecordShowsConformance(imgs[k], decoder);
    }
  }

  /** The four image tests all pass exactly when every `<img>` conforms on its own. */
  lemma ImageTestsPassIff(imgs: seq<ImgElement>, decoder: Decoder)
    ensures (var images := Records(imgs, decoder);
             (forall k | 0 <= k < |imgs| :: PathClean(imgs[k], decoder))
             && WidthsBounded(images) && InImageDirectory(images) && DimensionsMatch(images))
        <==> forall k | 0 <= k < |imgs| :: ImageConforms(imgs[k], decoder)
  {
    RecordTestsPassIff(Records(imgs, decoder));
    if forall k | 0 <= k < |imgs| :: ImageConforms(imgs[k], decoder) {
      ConformingImagesPassTests(imgs, decoder);
    } else if forall k | 0 <= k < |imgs| :: PathClean(imgs[k], decoder) {
      if forall r | r in Records(imgs, decoder) :: RecordPasses(r) {
        ImageTestsPassOnlyIfConform(imgs, decoder);
      }
    }
  }

  /** An element belongs to the gathered list exactly when some document holds it. */
  lemma {:induction false} AllImagesMembers(docs: seq<Document>, img: ImgElement)
    ensures img in AllImages(docs) <==> exists d | 0 <= d < |docs| :: img in docs[d].images
  {
    if docs != [] {
      var init := docs[..|docs| - 1];
      AllImagesMembers(init, img);
      if img in AllImages(init) {
        var d :| 0 <= d < |init| && img in init[d].images;
        assert docs[d] == init[d];
      }
      if exists d | 0 <= d < |docs| :: img in docs[d].images {
        var d :| 0 <= d < |docs| && img in docs[d].images;
        if d < |docs| - 1 {
          assert init[d] == docs[d];
        }
      }
    }
  }

  /** Every gathered element conforms exactly when every `<img>` of every
      document does. */
  lemma EveryGatheredImage(docs: seq<Document>, decoder: Decoder)
    ensures (forall k | 0 <= k < |AllImages(docs)| :: ImageConforms(AllImages(docs)[k], decoder))
        <==> (forall d, img | 0 <= d < |docs| && img in docs[d].images :: ImageConforms(img, decoder))
  {
    var imgs := AllImages(docs);
    if forall k | 0 <= k < |imgs| :: ImageConforms(imgs[k], decoder) {
      forall d, img | 0 <= d < |docs| && img in docs[d].images ensures ImageConforms(img, decoder) {
        AllImagesMembers(docs, img);
        var k :| 0 <= k < |imgs| && imgs[k] == img;
      }
    }
    if forall d, img | 0 <= d < |docs| && img in docs[d].images :: ImageConforms(img, decoder) {
      forall k | 0 <= k < |imgs| ensures ImageConforms(imgs[k], decoder) {
        AllImagesMembers(docs, imgs[k]);
        assert imgs[k] in imgs;
        var d :| 0 <= d < |docs| && imgs[k] in docs[d].images;
      }
    }
  }

  /** A source one directory up loses exactly the `../`, and only that one:
      the prefix is removed once, not repeatedly. */
  lemma StripsOnce(path: string)
    ensures ImagePath("../" + path) == path
    ensures ImagePath("../../" + path) == "../" + path
  {
    assert ("../" + path)[3..] == path;
    assert ("../../" + path)[3..] == "../" + path;
  }

  /** A character stored as a surrogate pair fills both dots of the prefix
      pattern on its own, so it and the slash after it are removed. */
  lemma StripsSurrogatePair(c: char, path: string)
    requires IsAstral(c)
    ensures ImagePath([c] + "/" + path) == path
  {
    assert ([c] + "/" + path)[2..] == path;
  }

  /** A source already under `images/` is left as it is. */
  lemma RootedPathUnchanged(rest: string)
    ensures ImagePath(ImageDirectory + rest) == ImageDirectory + rest
  {
    assert (ImageDirectory + rest)[2] == 'a';
  }

  /** The exemption reads the path's characters literally: any name ending in
      `svg` is exempt, dot or not, and so is any path containing `hero`. */
  lemma {:induction false} ExemptPaths(stem: string, pre: string, post: string)
    ensures IsExempt(stem + "svg")
    ensures IsExempt(pre + "hero" + post)
  {
    var s := stem + "svg";
    assert s[|s| - 3..] == "svg";
    var h := pre + "hero" + post;
    assert h[|pre|..|pre| + 4] == "hero";
    assert StartsAt(h, |pre|, "hero");
  }
}
