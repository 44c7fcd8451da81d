/** `detect_bank` of backend/parser.py: a case-insensitive search for four
    bank phrases in a fixed order. */
module Bank {
  import opened Text

  datatype BankFormat = Axis | Amex | HDFC | ICICI | Unknown {

    /** The string `detect_bank` returns and `parse_transactions` dispatches on. */
    function Label(): string
    {
      match this
      case Axis => "Axis"
      case Amex => "Amex"
      case HDFC => "HDFC"
      case ICICI => "ICICI"
      case Unknown => "Unknown"
    }
  }

  const AxisPhrase: string := "axis bank"
  const AmexPhrase: string := "american express"
  const HdfcPhrase: string := "hdfc bank"
  const IciciPhrase: string := "icici bank"

  /** `phrase in text.lower()` */
  predicate Mentions(text: string, phrase: string)
  {
    Contains(LowerStr(text), phrase)
  }

  function DetectBank(text: string): (b: BankFormat)
    ensures b == Axis <==> Mentions(text, AxisPhrase)
    ensures b == Amex <==> !Mentions(text, AxisPhrase) && Mentions(text, AmexPhrase)
    ensures b == HDFC <==> !Mentions(text, AxisPhrase) && !Mentions(text, AmexPhrase)
                           && Mentions(text, HdfcPhrase)
    ensures b == ICICI <==> !Mentions(text, AxisPhrase) && !Mentions(text, AmexPhrase)
                            && !Mentions(text, HdfcPhrase) && Mentions(text, IciciPhrase)
    ensures b == Unknown <==> !Mentions(text, AxisPhrase) && !Mentions(text, AmexPhrase)
                              && !Mentions(text, HdfcPhrase) && !Mentions(text, IciciPhrase)
  {
    if Mentions(text, AxisPhrase) then Axis
    else if Mentions(text, AmexPhrase) then Amex
    else if Mentions(text, HdfcPhrase) then HDFC
    else if Mentions(text, IciciPhrase) then ICICI
    else Unknown
  }

  /** Detection ignores case: lower-casing the text first changes nothing. */
  lemma DetectBankIgnoresCase(text: string)
    ensures DetectBank(LowerStr(text)) == DetectBank(text)
  {
    LowerStrIdempotent(text);
  }

  /** Appending text after an Axis phrase cannot change the verdict:
      Axis wins over every other phrase. */
  lemma {:induction false} AxisDominates(text: string, more: string)
    requires Mentions(text, AxisPhrase)
    ensures DetectBank(text + more) == Axis
  {
    var lowered := LowerStr(text);
    ContainsOccurs(lowered, AxisPhrase);
    var i :| OccursAt(lowered, AxisPhrase, i);
    LowerStrAppend(text, more);
    var all := LowerStr(text + more);
    assert all[i..i + |AxisPhrase|] == lowered[i..i + |AxisPhrase|];
    OccursContains(all, AxisPhrase, i);
  }

  /** Each label names one format: the labels are pairwise distinct. */
  lemma LabelsDistinct(a: BankFormat, b: BankFormat)
    ensures a.Label() == b.Label() <==> a == b
  {
  }
}
