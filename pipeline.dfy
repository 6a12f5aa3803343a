/** The per-cheque pipelines: `process_cheque` in extract_all_cheque.py and
    `process_cheque_image_file` in extract_cheque_data.py (strategy A for the
    date), and `process_cheque` in main.py (strategy B). Reading the image
    and running the OCR engine are outside the model: a cheque is given as
    what the OCR engine reports for it. */
module Pipeline {
  import opened Text
  import opened Regions
  import opened Fields
  import opened Dates
  import opened Banks

  /** What OCR reports for one cheque image: the text of the whole image,
      the words of `image_to_data` with their boxes, the image size, and the
      text OCR reads from any crop of the image. */
  datatype Page = Page(fullText: string, words: seq<OcrWord>, height: nat, width: nat, ocr: Crop -> string)

  /** The dictionary a pipeline returns. The amount is kept in hundredths;
      `None` stands for the empty string the source returns. */
  datatype ChequeRecord = ChequeRecord(filename: string, bankName: string, ifscCode: string, amount: Option<nat>, date: string)

  /** `full_text = pytesseract.image_to_string(img).upper()` */
  function FullText(page: Page): (t: string)
    ensures |t| == |page.fullText|
    ensures forall k | 0 <= k < |t| :: !IsLower(t[k])
  {
    Upper(page.fullText)
  }

  /** The text a field is read from: the upper-cased OCR of the crop around the
      keyword when a word mentions it, the upper-cased full text otherwise. */
  function RegionText(page: Page, keyword: string): (t: string)
    ensures forall k | 0 <= k < |t| :: !IsLower(t[k])
  {
    var region := LocateTemplateRegion(page.words, keyword, page.height, page.width);
    if region.Some? then Upper(page.ocr(region.value)) else FullText(page)
  }

  /** The IFSC code and the amount are read the same way in every pipeline. */
  function IfscOf(page: Page): (r: string)
    ensures r == "" || IsIfsc(r)
  {
    ExtractIfsc(RegionText(page, "IFSC"))
  }

  function AmountOf(page: Page): (r: Option<nat>)
    ensures r.None? <==> AmountTokens(RegionText(page, "RUPEES")) == []
    ensures r.Some? ==> r.value in AmountValues(RegionText(page, "RUPEES"))
  {
    ExtractAmount(RegionText(page, "RUPEES"))
  }

  /** The pipeline of extract_all_cheque.py and extract_cheque_data.py: the
      date is found in the full text and normalised afterwards. The two
      scripts differ only in where the file name comes from. */
  function ProcessChequeA(filename: string, page: Page): (r: ChequeRecord)
    ensures r.filename == filename && WellFormedRecord(r)
  {
    DateAOutcome(FullText(page));
    var fullText := FullText(page);
    var ifsc := IfscOf(page);
    ChequeRecord(filename, ExtractBankName(fullText, ifsc), ifsc, AmountOf(page),
      NormalizeDate(ExtractDateA(fullText)))
  }

  /** `process_cheque(image_path)` of extract_all_cheque.py, given the base name of the path. */
  function ProcessChequeBatch(baseName: string, page: Page): (r: ChequeRecord)
    ensures r.filename == baseName && WellFormedRecord(r)
  {
    ProcessChequeA(baseName, page)
  }

  /** `process_cheque_image_file(uploaded_file)` of extract_cheque_data.py, given the upload's name. */
  function ProcessChequeImageFile(uploadName: string, page: Page): (r: ChequeRecord)
    ensures r.filename == uploadName && WellFormedRecord(r)
  {
    ProcessChequeA(uploadName, page)
  }

  /** `process_cheque(image_path)` of main.py: the date is read, already
      reformatted, from the DATE region, or from the full text when no word
      mentions DATE. */
  function ProcessChequeMain(baseName: string, page: Page): (r: ChequeRecord)
    ensures r.filename == baseName && WellFormedRecord(r)
  {
    var fullText := FullText(page);
    var ifsc := IfscOf(page);
    ExtractDateBShape(RegionText(page, "DATE"));
    ChequeRecord(baseName, ExtractBankName(fullText, ifsc), ifsc, AmountOf(page),
      ExtractDateB(RegionText(page, "DATE")))
  }

  /** main.py reads the date from the OCR of the DATE crop when a word
      mentions DATE, and from the full text otherwise. */
  lemma MainDateSource(baseName: string, page: Page)
    ensures var region := LocateTemplateRegion(page.words, "DATE", page.height, page.width);
      var date := ProcessChequeMain(baseName, page).date;
      (region.Some? ==> date == ExtractDateB(Upper(page.ocr(region.value))))
      && (region.None? ==> date == ExtractDateB(FullText(page)))
  {
  }

  /** Every pipeline reads the IFSC code from the OCR of the IFSC crop and the
      amount from the OCR of the RUPEES crop when a word mentions the keyword,
      and from the full text otherwise, whatever the other keywords do. */
  lemma FieldSources(name: string, page: Page)
    ensures var ifscRegion := LocateTemplateRegion(page.words, "IFSC", page.height, page.width);
      var a, m := ProcessChequeA(name, page), ProcessChequeMain(name, page);
      (ifscRegion.Some? ==> a.ifscCode == ExtractIfsc(Upper(page.ocr(ifscRegion.value)))
                            && m.ifscCode == a.ifscCode)
      && (ifscRegion.None? ==> a.ifscCode == ExtractIfsc(FullText(page)) && m.ifscCode == a.ifscCode)
    ensures var amountRegion := LocateTemplateRegion(page.words, "RUPEES", page.height, page.width);
      var a, m := ProcessChequeA(name, page), ProcessChequeMain(name, page);
      (amountRegion.Some? ==> a.amount == ExtractAmount(Upper(page.ocr(amountRegion.value)))
                              && m.amount == a.amount)
      && (amountRegion.None? ==> a.amount == ExtractAmount(FullText(page)) && m.amount == a.amount)
  {
  }

  /** What every record holds: an empty or well-formed IFSC code, a known
      bank or Unknown, and an empty or `DD-MM-YYYY` date. */
  predicate WellFormedRecord(r: ChequeRecord)
  {
    (r.ifscCode == "" || IsIfsc(r.ifscCode))
    && (r.bankName in KnownBanks || r.bankName == UnknownBank)
    && (r.date == "" || IsCanonicalDate(r.date))
  }

  /** When the bank is not named in the full text, it follows from the code's
      first four characters; no code gives Unknown. */
  lemma BankFromCode(name: string, page: Page)
    requires forall q | 0 <= q < |KnownBanks| :: !Contains(FullText(page), KnownBanks[q])
    ensures var ifsc := IfscOf(page);
      ProcessChequeA(name, page).bankName == ProcessChequeMain(name, page).bankName
      && ProcessChequeA(name, page).bankName == (if ifsc == "" then UnknownBank else BankOfCode(ifsc[..4]))
      && (ifsc != "" ==> (ProcessChequeA(name, page).bankName == UnknownBank <==> ifsc[..4] !in PrefixBanks))
  {
    var ifsc := IfscOf(page);
    ExtractBankNameByCode(FullText(page), ifsc);
    if ifsc != "" {
      assert Prefix(ifsc[..4], 4) == Prefix(ifsc, 4);
    }
  }

  /** With no keyword found on the page, every field comes from the full text. */
  lemma NoRegionsFound(filename: string, page: Page)
    requires forall i | 0 <= i < |page.words| ::
      !MentionsKeyword(page.words[i], "IFSC") && !MentionsKeyword(page.words[i], "RUPEES")
      && !MentionsKeyword(page.words[i], "DATE")
    ensures var t := FullText(page); var r, m := ProcessChequeA(filename, page), ProcessChequeMain(filename, page);
      r.ifscCode == ExtractIfsc(t) && r.amount == ExtractAmount(t) && r.date == NormalizeDate(ExtractDateA(t))
      && m.ifscCode == ExtractIfsc(t) && m.amount == ExtractAmount(t) && m.date == ExtractDateB(t)
  {
  }

  /** Under strategy A the date depends on the full text alone: the words,
      the image size and the OCR of crops play no part. */
  lemma DateAUsesFullTextOnly(name1: string, page1: Page, name2: string, page2: Page)
    requires page1.fullText == page2.fullText
    ensures ProcessChequeA(name1, page1).date == ProcessChequeA(name2, page2).date
  {
  }

  /** The three pipelines agree on everything but the date, and the two
      strategy-A scripts agree on the date as well. */
  lemma PipelinesAgree(name: string, page: Page)
    ensures var a, u, m := ProcessChequeBatch(name, page), ProcessChequeImageFile(name, page), ProcessChequeMain(name, page);
      a == u && a.(date := m.date) == m
  {
  }
}
