/** `locate_template_region`, which reads the same in all three pipeline
    scripts: the first OCR word containing a keyword anchors a fixed-size
    crop of the image below and to the right of it. Images are described by
    their size only; what the crop shows is left to the OCR function of
    module Pipeline. */
module Regions {
  import opened Text

  /** One entry of `image_to_data`: the word's text and its bounding box. */
  datatype OcrWord = OcrWord(text: string, left: nat, top: nat, width: nat, height: nat)

  /** The rows `rowStart..rowEnd` and columns `colStart..colEnd` of an image. */
  datatype Crop = Crop(rowStart: nat, rowEnd: nat, colStart: nat, colEnd: nat)

  /** How many extra rows below the word, and how many columns from its left edge, are kept. */
  const RowMargin: nat := 40
  const CropWidth: nat := 250

  function Min(a: nat, b: nat): nat { if a <= b then a else b }

  /** Index `k` lies in the half-open range `lo..hi`. */
  predicate InRange(k: int, lo: int, hi: int) { lo <= k < hi }

  /** The index range numpy selects with `[start:stop]` on an axis of
      length `size`, for `start <= stop`: exactly the indices of
      `start..stop` that exist on the axis. */
  function ClipRange(start: nat, stop: nat, size: nat): (r: (nat, nat))
    requires start <= stop
    ensures r.0 <= r.1 <= size
    ensures forall k :: InRange(k, r.0, r.1) <==> InRange(k, start, stop) && k < size
    ensures stop <= size ==> r == (start, stop)
    ensures size <= start ==> r.0 == r.1
  {
    (Min(start, size), Min(stop, size))
  }

  /** `img[y:y+h+40, x:x+250]` for the word's box in an image of the given
      size: the rows from the word's top to 40 below its bottom and the 250
      columns from its left edge, cut to the image. */
  function CropAround(word: OcrWord, imageHeight: nat, imageWidth: nat): (c: Crop)
    ensures c.rowStart <= c.rowEnd <= imageHeight && c.colStart <= c.colEnd <= imageWidth
    ensures forall y ::
      InRange(y, c.rowStart, c.rowEnd) <==> InRange(y, word.top, word.top + word.height + RowMargin) && y < imageHeight
    ensures forall x ::
      InRange(x, c.colStart, c.colEnd) <==> InRange(x, word.left, word.left + CropWidth) && x < imageWidth
  {
    var rows := ClipRange(word.top, word.top + word.height + RowMargin, imageHeight);
    var cols := ClipRange(word.left, word.left + CropWidth, imageWidth);
    Crop(rows.0, rows.1, cols.0, cols.1)
  }

  /** `keyword.upper() in word.upper()` */
  predicate MentionsKeyword(word: OcrWord, keyword: string)
  {
    Contains(Upper(word.text), Upper(keyword))
  }

  /** `locate_template_region(img, keyword)`: `None` when no word mentions
      the keyword, otherwise the crop around the first word that does. */
  function LocateTemplateRegion(words: seq<OcrWord>, keyword: string, imageHeight: nat, imageWidth: nat): (r: Option<Crop>)
    ensures r.None? <==> forall i | 0 <= i < |words| :: !MentionsKeyword(words[i], keyword)
    ensures r.Some? ==> r.value.rowStart <= r.value.rowEnd <= imageHeight && r.value.colStart <= r.value.colEnd <= imageWidth
  {
    var first := FirstWhere(words, w => MentionsKeyword(w, keyword), 0);
    if first.Some? then Some(CropAround(words[first.value], imageHeight, imageWidth)) else None
  }

  /** The crop is taken around the first word that mentions the keyword. */
  lemma LocateFirstMention(words: seq<OcrWord>, keyword: string, imageHeight: nat, imageWidth: nat, i: nat)
    requires i < |words| && MentionsKeyword(words[i], keyword)
    requires forall j | 0 <= j < i :: !MentionsKeyword(words[j], keyword)
    ensures LocateTemplateRegion(words, keyword, imageHeight, imageWidth) == Some(CropAround(words[i], imageHeight, imageWidth))
  {
    var first := FirstWhere(words, w => MentionsKeyword(w, keyword), 0);
    assert first.Some? && first.value <= i;
  }

  /** When the box fits, the crop starts at the word's top-left corner and
      is the word's height plus 40 rows tall and 250 columns wide. */
  lemma CropInsideImage(word: OcrWord, imageHeight: nat, imageWidth: nat)
    requires word.top + word.height + RowMargin <= imageHeight && word.left + CropWidth <= imageWidth
    ensures var c := CropAround(word, imageHeight, imageWidth);
      c.rowStart == word.top && c.rowEnd - c.rowStart == word.height + 40
      && c.colStart == word.left && c.colEnd - c.colStart == 250
  {
  }

  /** A word that starts beyond the right or bottom edge gives an empty crop. */
  lemma CropOutsideImage(word: OcrWord, imageHeight: nat, imageWidth: nat)
    requires imageHeight <= word.top || imageWidth <= word.left
    ensures var c := CropAround(word, imageHeight, imageWidth);
      c.rowStart == c.rowEnd || c.colStart == c.colEnd
  {
  }

  /** Matching ignores case on both sides. */
  lemma MentionIgnoresCase(word: OcrWord, keyword: string)
    ensures MentionsKeyword(word, keyword) <==> MentionsKeyword(word, Upper(keyword))
    ensures MentionsKeyword(word, keyword) <==> MentionsKeyword(word.(text := Upper(word.text)), keyword)
  {
    UpperIdempotent(keyword);
    UpperIdempotent(word.text);
  }
}
