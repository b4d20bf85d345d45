/** The image record of the model package: building one from an uploaded
    file, the tag summary shown for it, and the ordering of images fetched
    by a list of ids. */
module ImageModel {
  import opened Wrappers
  import opened GoStrings
  import opened Decimal
  import opened GoUtil
  import opened KeySort
  import Base64

  type byte = Base64.byte

  const MaxImageSize: int := 0x200_0000
  const MinImageHeight: int := 200
  const MinImageWidth: int := 200
  const MinImageHeightOrWidth: int := 300

  const ContentRatingG: int := 1
  const ContentRatingPG13: int := 3

  datatype Image = Image(
    id: int,
    uuid: String,
    createdUtc: int,
    createdBy: int,
    displayName: String,
    contentRating: int,
    md5: seq<byte>,
    width: int,
    height: int,
    fileSize: int,
    extension: String)

  /** Copies a 16-byte digest into a fresh byte slice. */
  method ConvertMD5(md5sum: seq<byte>) returns (r: seq<byte>)
    requires |md5sum| == 16
    ensures |r| == 16
    ensures forall i :: 0 <= i < 16 ==> r[i] == md5sum[i]
  {
    var buffer := new byte[16];
    var i := 0;
    while i < 16
      invariant 0 <= i <= 16
      invariant forall k :: 0 <= k < i ==> buffer[k] == md5sum[k]
    {
      buffer[i] := md5sum[i];
      i := i + 1;
    }
    r := buffer[..];
  }

  // ---------------------------------------------------------------------
  // File extensions
  // ---------------------------------------------------------------------

  /** `filepath.Ext`: the text from the last '.' of the final path element
      on, or empty when that element has no '.'. */
  function Ext(path: String): (r: String)
    ensures r == [] || (r[0] == '.' && |r| <= |path| && r == path[|path| - |r|..])
    ensures forall k :: 0 < k < |r| ==> r[k] != '.' && r[k] != '/'
    decreases |path|
  {
    if |path| == 0 then []
    else
      var last := path[|path| - 1];
      if last == '/' then []
      else if last == '.' then ['.']
      else
        var e := Ext(path[..|path| - 1]);
        if e == [] then [] else e + [last]
  }

  /** A name ending in '.' and a plain suffix has that suffix as extension. */
  lemma {:induction false} ExtOfSuffix(name: String, ext: String)
    requires forall k :: 0 <= k < |ext| ==> ext[k] != '.' && ext[k] != '/'
    ensures Ext(name + "." + ext) == "." + ext
    decreases |ext|
  {
    var path := name + "." + ext;
    if |ext| == 0 {
      assert path[|path| - 1] == '.';
    } else {
      var init := ext[..|ext| - 1];
      ExtOfSuffix(name, init);
      assert path[..|path| - 1] == name + "." + init;
      assert path[|path| - 1] == ext[|ext| - 1];
      assert "." + init + [ext[|ext| - 1]] == "." + ext;
    }
  }

  /** A final path element without '.' has no extension. */
  lemma {:induction false} ExtOfPlain(path: String)
    requires forall k :: 0 <= k < |path| ==> path[k] != '.'
    ensures Ext(path) == []
    decreases |path|
  {
    if |path| > 0 && path[|path| - 1] != '/' {
      ExtOfPlain(path[..|path| - 1]);
    }
  }

  // ---------------------------------------------------------------------
  // Uploads
  // ---------------------------------------------------------------------

  datatype Dimensions = Dimensions(width: int, height: int)

  datatype ImageError =
    | Undecodable   // the header is not a gif, jpeg or png one
    | TooNarrow     // width below MinImageWidth
    | TooShort      // height below MinImageHeight
    | TooSmall      // neither side reaches MinImageHeightOrWidth
    | TooLarge      // more than MaxImageSize bytes

  /** The upload rules, stated as one conjunction. */
  predicate MeetsMinimums(d: Dimensions, size: int) {
    d.width >= MinImageWidth && d.height >= MinImageHeight
    && (d.width >= MinImageHeightOrWidth || d.height >= MinImageHeightOrWidth)
    && size <= MaxImageSize
  }

  /** `NewImageFromPostedFile`: `config` is what the image header decodes
      to, `digest` the file's MD5 sum, `uuid` and `now` the fresh identifier
      and clock reading of `NewImage`. */
  function NewImageFromPostedFile(userId: int, shouldValidate: bool, fileContents: seq<byte>, fileName: String,
                                  digest: seq<byte>, config: Option<Dimensions>, uuid: String, now: int)
    : (r: Result<Image, ImageError>)
    ensures config.None? ==> r == Err(Undecodable)
    ensures r.Ok? ==> (r.value.contentRating == ContentRatingG && r.value.displayName == fileName
                       && r.value.fileSize == |fileContents| && r.value.createdBy == userId && r.value.md5 == digest
                       && r.value.extension == ToLower(Ext(fileName))
                       && r.value.width == config.value.width && r.value.height == config.value.height)
    ensures r.Err? && r.error != Undecodable ==> shouldValidate
  {
    match config
    case None => Err(Undecodable)
    case Some(d) =>
      var image := Image(0, uuid, now, userId, fileName, ContentRatingG, digest, d.width, d.height,
                         |fileContents|, ToLower(Ext(fileName)));
      if !shouldValidate then Ok(image)
      else if d.width < MinImageWidth then Err(TooNarrow)
      else if d.height < MinImageHeight then Err(TooShort)
      else if d.width < MinImageHeightOrWidth && d.height < MinImageHeightOrWidth then Err(TooSmall)
      else if |fileContents| > MaxImageSize then Err(TooLarge)
      else Ok(image)
  }

  /** A decodable upload is accepted exactly when validation is off or the
      image meets every minimum. */
  lemma UploadAcceptedIff(userId: int, shouldValidate: bool, fileContents: seq<byte>, fileName: String,
                          digest: seq<byte>, d: Dimensions, uuid: String, now: int)
    ensures NewImageFromPostedFile(userId, shouldValidate, fileContents, fileName, digest, Some(d), uuid, now).Ok?
      <==> !shouldValidate || MeetsMinimums(d, |fileContents|)
  {
  }

  /** The checks run in order, so the first rule broken names the error. */
  lemma UploadFirstBrokenRule(userId: int, fileContents: seq<byte>, fileName: String,
                              digest: seq<byte>, d: Dimensions, uuid: String, now: int)
    ensures var r := NewImageFromPostedFile(userId, true, fileContents, fileName, digest, Some(d), uuid, now);
      (r == Err(TooNarrow) <==> d.width < MinImageWidth)
      && (r == Err(TooShort) <==> d.width >= MinImageWidth && d.height < MinImageHeight)
      && (r == Err(TooLarge) <==> MeetsMinimums(d, 0) && |fileContents| > MaxImageSize)
  {
  }

  /** The upload exercised by the controller's test: a 275 x 364 image of
      58285 bytes named "image.gif". */
  lemma UploadedTestImage(userId: int, fileContents: seq<byte>, fileName: String, digest: seq<byte>, uuid: String, now: int)
    requires |fileContents| == 58285 && fileName == "image.gif"
    ensures var r := NewImageFromPostedFile(userId, true, fileContents, fileName, digest, Some(Dimensions(275, 364)), uuid, now);
      r.Ok? && r.value.width == 275 && r.value.height == 364 && r.value.fileSize == 58285
      && r.value.extension == ".gif" && r.value.contentRating == ContentRatingG
  {
    ExtOfSuffix("image", "gif");
    assert fileName == "image" + "." + "gif";
    LowerUnchanged(".gif");
  }

  // ---------------------------------------------------------------------
  // Tag summaries
  // ---------------------------------------------------------------------

  /** The two tag fields the summary reads. */
  datatype TagView = TagView(value: String, votesTotal: int)

  /** One summary entry, "(votes) value". */
  function SummaryEntry(t: TagView): (r: String)
    ensures |r| > 0 && r[0] == '('
  {
    "(" + FormatInt(t.votesTotal) + ") " + t.value
  }

  function SummaryEntries(tags: seq<TagView>): (r: seq<String>)
    ensures |r| == |tags| && forall k :: 0 <= k < |tags| ==> r[k] == SummaryEntry(tags[k])
  {
    seq(|tags|, k requires 0 <= k < |tags| => SummaryEntry(tags[k]))
  }

  /** `Image.GetTagsSummary`. */
  function TagsSummary(tags: seq<TagView>): (r: String)
    ensures |r| > 0
  {
    if |tags| == 0 then "N/A" else Join(SummaryEntries(tags), ", ")
  }

  /** The first part opens the joined text. */
  lemma JoinStartsWithFirst(parts: seq<String>, sep: String)
    requires |parts| > 0
    ensures |Join(parts, sep)| >= |parts[0]| && Join(parts, sep)[..|parts[0]|] == parts[0]
  {
  }

  lemma NotAvailableLetter(na: String)
    requires na == "N/A"
    ensures na[0] == 'N'
  {
  }

  /** The summary is "N/A" exactly when the image has no tags. */
  lemma SummaryNotAvailableIff(tags: seq<TagView>)
    ensures TagsSummary(tags) == "N/A" <==> |tags| == 0
  {
    if |tags| > 0 {
      var parts := SummaryEntries(tags);
      JoinStartsWithFirst(parts, ", ");
      assert TagsSummary(tags)[0] == parts[0][0] == '(';
      NotAvailableLetter("N/A");
    }
  }

  /** A single tag gives its entry; each further tag adds ", " and its entry in front. */
  lemma SummaryCons(t: TagView, rest: seq<TagView>)
    ensures |rest| == 0 ==> TagsSummary([t]) == SummaryEntry(t)
    ensures |rest| > 0 ==> TagsSummary([t] + rest) == SummaryEntry(t) + ", " + TagsSummary(rest)
  {
    EntriesCons(t, rest);
    if |rest| > 0 {
      JoinCons(SummaryEntry(t), SummaryEntries(rest), ", ");
    } else {
      assert [t] + rest == [t];
    }
  }

  /** The entries of a tag list are its first tag's entry and then the rest's. */
  lemma EntriesCons(t: TagView, rest: seq<TagView>)
    ensures SummaryEntries([t] + rest) == [SummaryEntry(t)] + SummaryEntries(rest)
  {
  }

  /** Joining a part in front of at least one more part puts the separator between them. */
  lemma JoinCons(first: String, rest: seq<String>, sep: String)
    requires |rest| > 0
    ensures Join([first] + rest, sep) == first + sep + Join(rest, sep)
  {
    assert ([first] + rest)[1..] == rest;
  }

  // ---------------------------------------------------------------------
  // Fetching by ids
  // ---------------------------------------------------------------------

  /** The position `imagesByIndex` records for `id`: the last place it takes
      in `ids`, or 0, the map's zero value, for an id not requested. */
  function IndexIn(ids: seq<int>, id: int): (r: nat)
    ensures id in ids ==> r < |ids| && ids[r] == id && forall k :: r < k < |ids| ==> ids[k] != id
    ensures id !in ids ==> r == 0
    decreases |ids|
  {
    if |ids| == 0 then 0
    else if ids[|ids| - 1] == id then |ids| - 1
    else
      assert id in ids ==> id in ids[..|ids| - 1] by {
        if id in ids { var k :| 0 <= k < |ids| && ids[k] == id; assert ids[..|ids| - 1][k] == id; }
      }
      IndexIn(ids[..|ids| - 1], id)
  }

  /** The sort key of `imagesByIndex`. */
  function RequestedPosition(ids: seq<int>): (key: Image -> int)
    ensures forall image :: key(image) == IndexIn(ids, image.id)
  {
    (image: Image) => IndexIn(ids, image.id)
  }

  /** The order `GetImagesByID` returns: sorted by requested position when
      more than one id was asked for, as read otherwise. */
  function OrderByRequest(images: seq<Image>, ids: seq<int>): (r: seq<Image>)
    ensures |r| == |images| && multiset(r) == multiset(images)
    ensures |ids| > 1 ==> forall i, j :: 0 <= i < j < |r| ==> IndexIn(ids, r[i].id) <= IndexIn(ids, r[j].id)
  {
    if |ids| > 1 then SortBy(images, RequestedPosition(ids)) else images
  }

  predicate DistinctInts(ids: seq<int>) {
    forall i, j :: 0 <= i < j < |ids| ==> ids[i] != ids[j]
  }

  /** Images whose ids are distinct requested ids sit at distinct requested positions. */
  lemma DistinctPositions(images: seq<Image>, ids: seq<int>)
    requires |images| == |ids|
    requires forall i :: 0 <= i < |images| ==> images[i].id in ids
    requires forall i, j :: 0 <= i < j < |images| ==> images[i].id != images[j].id
    ensures var key := RequestedPosition(ids);
      (forall i, j :: 0 <= i < j < |images| ==> key(images[i]) != key(images[j]))
      && (forall i :: 0 <= i < |images| ==> 0 <= key(images[i]) < |images|)
  {
    var key := RequestedPosition(ids);
    forall i, j | 0 <= i < j < |images| ensures key(images[i]) != key(images[j]) {
      assert ids[IndexIn(ids, images[i].id)] == images[i].id;
      assert ids[IndexIn(ids, images[j].id)] == images[j].id;
    }
  }

  /** Images answering a list of distinct ids, one per id, come back in the
      requested order. */
  lemma RequestedOrder(images: seq<Image>, ids: seq<int>)
    requires DistinctInts(ids) && |images| == |ids|
    requires forall i :: 0 <= i < |images| ==> images[i].id in ids
    requires forall i, j :: 0 <= i < j < |images| ==> images[i].id != images[j].id
    ensures var r := OrderByRequest(images, ids); forall i :: 0 <= i < |r| ==> r[i].id == ids[i]
  {
    var r := OrderByRequest(images, ids);
    if |ids| > 1 {
      var key := RequestedPosition(ids);
      DistinctPositions(images, ids);
      SortedByDistinctPositions(images, key);
      assert r == SortBy(images, key);
      forall i | 0 <= i < |r| ensures r[i].id == ids[i] {
        assert key(SortBy(images, key)[i]) == i;
        assert r[i] in multiset(images);
        RequestedIdAt(images, ids, r[i], i);
      }
    } else if |ids| == 1 {
      assert images[0].id in ids;
    }
  }

  /** An image of the list at requested position `i` carries the `i`-th id. */
  lemma RequestedIdAt(images: seq<Image>, ids: seq<int>, image: Image, i: int)
    requires DistinctInts(ids)
    requires forall k :: 0 <= k < |images| ==> images[k].id in ids
    requires image in multiset(images) && IndexIn(ids, image.id) == i
    ensures 0 <= i < |ids| && image.id == ids[i]
  {
    var a :| 0 <= a < |images| && images[a] == image;
  }

  /** The id and score a signature query returns; the score, a float, is
      not modelled. */
  datatype ImageSignature = ImageSignature(id: int)

  /** `imageSignatures.AsInt64s`. */
  function AsInt64s(signatures: seq<ImageSignature>): (r: seq<int>)
    ensures |r| == |signatures| && forall k :: 0 <= k < |r| ==> r[k] == signatures[k].id
    decreases |signatures|
  {
    if |signatures| == 0 then [] else AsInt64s(signatures[..|signatures| - 1]) + [signatures[|signatures| - 1].id]
  }

  /** `csvOfInt` of the signature ids reads back, field by field, as those ids. */
  lemma SignatureIdsReadBack(signatures: seq<ImageSignature>)
    requires |signatures| > 0
    ensures var fields := SplitOn(ToCSVOfInt(AsInt64s(signatures)), ',');
      |fields| == |signatures| && forall k :: 0 <= k < |signatures| ==> ParseDecimal(fields[k]) == Some(signatures[k].id)
  {
    CSVOfIntReadsBack(AsInt64s(signatures));
  }

  /** `WeightedRandom`; `sampled` stands for the outcome of the random
      selection, which runs only when fewer signatures are asked for than
      there are. */
  function WeightedRandom(signatures: seq<ImageSignature>, count: int, sampled: seq<ImageSignature>)
    : (r: seq<ImageSignature>)
    ensures count >= |signatures| ==> r == signatures
  {
    if count >= |signatures| then signatures else sampled
  }

  /** Asking for at least as many as there are keeps every id in place. */
  lemma WeightedRandomKeepsAll(signatures: seq<ImageSignature>, count: int, sampled: seq<ImageSignature>)
    requires count >= |signatures|
    ensures AsInt64s(WeightedRandom(signatures, count, sampled)) == AsInt64s(signatures)
  {
  }
}
