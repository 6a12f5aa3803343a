/** `extract_bank_name`, which reads the same in all three pipeline scripts:
    a bank named in the full text wins, otherwise the first four characters
    of the IFSC code say which bank issued it. */
module Banks {
  import opened Text

  /** `KNOWN_BANKS`, in the order they are looked for. */
  const KnownBanks: seq<string> := [
    "ICICI BANK", "AXIS BANK", "SYNDICATE BANK", "CANARA BANK",
    "STATE BANK OF INDIA", "BANK OF BARODA", "HDFC BANK", "UNION BANK"]

  /** `IFSC_PREFIX_MAP`: bank codes, the first four characters of an IFSC code. */
  const PrefixBanks: map<string, string> := map[
    "ICIC" := "ICICI BANK", "UTIB" := "AXIS BANK", "SYNB" := "SYNDICATE BANK",
    "CNRB" := "CANARA BANK", "SBIN" := "STATE BANK OF INDIA",
    "BARB" := "BANK OF BARODA", "HDFC" := "HDFC BANK", "UBIN" := "UNION BANK"]

  const UnknownBank: string := "Unknown"

  /** `IFSC_PREFIX_MAP.get(ifsc_code[:4], "Unknown")`. */
  function BankOfCode(ifsc: string): (r: string)
    ensures r in KnownBanks || r == UnknownBank
    ensures r == UnknownBank <==> Prefix(ifsc, 4) !in PrefixBanks
  {
    var code := Prefix(ifsc, 4);
    if code in PrefixBanks then PrefixBanks[code] else UnknownBank
  }

  /** The position in `KnownBanks` of the first bank the text names, if any. */
  function NamedBank(fullText: string): (r: Option<nat>)
    ensures r.Some? ==> r.value < |KnownBanks| && Contains(fullText, KnownBanks[r.value])
    ensures r.Some? ==> forall p | 0 <= p < r.value :: !Contains(fullText, KnownBanks[p])
    ensures r.None? ==> forall q | 0 <= q < |KnownBanks| :: !Contains(fullText, KnownBanks[q])
  {
    FirstWhere(KnownBanks, name => Contains(fullText, name), 0)
  }

  /** `extract_bank_name(full_text, ifsc_code)`: the first known bank whose
      name occurs in the text; failing that, the bank of a non-empty code
      (Unknown for a code not in the table); Unknown otherwise. */
  function ExtractBankName(fullText: string, ifsc: string): (r: string)
    ensures r in KnownBanks || r == UnknownBank
  {
    var named := NamedBank(fullText);
    if named.Some? then KnownBanks[named.value]
    else if ifsc != "" then BankOfCode(ifsc)
    else UnknownBank
  }

  /** The list is scanned in order: the first bank whose name occurs wins,
      whatever the code says. */
  lemma ExtractBankNameByText(fullText: string, ifsc: string, q: nat)
    requires q < |KnownBanks| && Contains(fullText, KnownBanks[q])
    requires forall p | 0 <= p < q :: !Contains(fullText, KnownBanks[p])
    ensures ExtractBankName(fullText, ifsc) == KnownBanks[q]
  {
    FirstWhereFinds(KnownBanks, name => Contains(fullText, name), q);
  }

  /** When the text names no known bank, the code decides, and an empty code gives Unknown. */
  lemma ExtractBankNameByCode(fullText: string, ifsc: string)
    requires forall q | 0 <= q < |KnownBanks| :: !Contains(fullText, KnownBanks[q])
    ensures ExtractBankName(fullText, ifsc) == if ifsc == "" then UnknownBank else BankOfCode(ifsc)
  {
  }

  /** The prefix table covers exactly the known banks, one code per bank. */
  lemma PrefixBanksCoverKnownBanks()
    ensures PrefixBanks.Values == set b | b in KnownBanks
    ensures forall c1, c2 | c1 in PrefixBanks && c2 in PrefixBanks && c1 != c2 :: PrefixBanks[c1] != PrefixBanks[c2]
  {
    var codes := ["ICIC", "UTIB", "SYNB", "CNRB", "SBIN", "BARB", "HDFC", "UBIN"];
    forall q | 0 <= q < |KnownBanks| ensures KnownBanks[q] in PrefixBanks.Values {
      var code := codes[q];
      assert code in PrefixBanks && PrefixBanks[code] == KnownBanks[q];
    }
    forall v | v in PrefixBanks.Values ensures v in KnownBanks {
      var code :| code in PrefixBanks && PrefixBanks[code] == v;
    }
  }

  /** A name in the text: "ICICI BANK" occurs at position 4. */
  lemma ExampleNamedInText()
    ensures ExtractBankName("PAY ICICI BANK LTD", "") == "ICICI BANK"
  {
    var text := "PAY ICICI BANK LTD";
    assert OccursAt(text, KnownBanks[0], 4);
    ExtractBankNameByText(text, "", 0);
  }

  /** A text shorter than every known name names none of them. */
  lemma ShortTextNamesNoBank(fullText: string)
    requires |fullText| < 9
    ensures forall q | 0 <= q < |KnownBanks| :: !Contains(fullText, KnownBanks[q])
  {
    assert forall q | 0 <= q < |KnownBanks| :: |KnownBanks[q]| >= 9;
  }

  lemma CodeExamples(sbin: string, zzzz: string)
    requires sbin == "SBIN0001234" && zzzz == "ZZZZ0001234"
    ensures BankOfCode(sbin) == "STATE BANK OF INDIA" && BankOfCode(zzzz) == UnknownBank
  {
    assert Prefix(sbin, 4) == "SBIN";
    assert Prefix(zzzz, 4) == "ZZZZ";
  }

  /** No name in the text, so the State Bank code SBIN decides. */
  lemma ExampleByCode()
    ensures ExtractBankName("PAY SELF", "SBIN0001234") == "STATE BANK OF INDIA"
    ensures ExtractBankName("PAY SELF", "ZZZZ0001234") == UnknownBank
    ensures ExtractBankName("PAY SELF", "") == UnknownBank
  {
    ShortTextNamesNoBank("PAY SELF");
    CodeExamples("SBIN0001234", "ZZZZ0001234");
    ExtractBankNameByCode("PAY SELF", "SBIN0001234");
    ExtractBankNameByCode("PAY SELF", "ZZZZ0001234");
    ExtractBankNameByCode("PAY SELF", "");
  }
}
