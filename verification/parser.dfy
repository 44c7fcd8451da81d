/** `parse_transactions` of backend/parser.py: one pass over the lines of the
    statement text, each line tried against the pattern of the given bank. */
module Parser {
  import opened Wrappers
  import opened Text
  import opened Grammar
  import opened Bank

  /** The pattern `parse_transactions` applies for a bank label; any label
      other than the four handled ones (including "Unknown") has none. */
  function GrammarFor(bank: string): (g: Option<Grammar>)
    ensures g.Some? ==> WellFormed(g.value)
    ensures g.Some? <==> bank in {Axis.Label(), Amex.Label(), HDFC.Label(), ICICI.Label()}
  {
    BankGrammarsWellFormed();
    if bank == Axis.Label() then Some(AxisGrammar)
    else if bank == Amex.Label() then Some(AmexGrammar)
    else if bank == HDFC.Label() then Some(HdfcGrammar)
    else if bank == ICICI.Label() then Some(IciciGrammar)
    else None
  }

  /** Every bank `detect_bank` reports selects its own pattern, and Unknown
      selects none: the labels are distinct, so no label is taken for
      another bank's. */
  lemma GrammarForFormat(b: BankFormat)
    ensures GrammarFor(b.Label()) == match b
                                     case Axis => Some(AxisGrammar)
                                     case Amex => Some(AmexGrammar)
                                     case HDFC => Some(HdfcGrammar)
                                     case ICICI => Some(IciciGrammar)
                                     case Unknown => None
  {
    LabelsDistinct(b, Axis);
    LabelsDistinct(b, Amex);
    LabelsDistinct(b, HDFC);
    LabelsDistinct(b, ICICI);
  }

  /** The loop over the lines, for any way `f` of reading one line: the
      records of the lines that yield one, in line order; the other lines
      are skipped. */
  function Scan(lines: seq<string>, f: string -> Option<Record>): (rs: seq<Record>)
    ensures |rs| <= |lines|
    decreases |lines|
  {
    if |lines| == 0 then []
    else
      (match f(lines[0])
       case Some(r) => [r]
       case None => []) + Scan(lines[1..], f)
  }

  /** Reading a line with the pattern `g`. */
  function LineParser(g: Grammar): string -> Option<Record>
  {
    line => ParseLine(line, g)
  }

  /** The loop of `parse_transactions`: no records at all for a label
      without a pattern. */
  function ParseLines(lines: seq<string>, bank: string): (rs: seq<Record>)
    ensures |rs| <= |lines|
    ensures GrammarFor(bank).None? ==> rs == []
  {
    match GrammarFor(bank)
    case None => []
    case Some(g) => Scan(lines, LineParser(g))
  }

  /** `parse_transactions(text, bank)`: at most one record per line of the
      text, and none for a label without a pattern. */
  function ParseTransactions(text: string, bank: string): (rs: seq<Record>)
    ensures |rs| <= |SplitLines(text)|
    ensures GrammarFor(bank).None? ==> rs == []
  {
    ParseLines(SplitLines(text), bank)
  }

  /** Every record comes from one of the lines. */
  lemma {:induction false} ScanFrom(lines: seq<string>, f: string -> Option<Record>, r: Record)
    requires r in Scan(lines, f)
    ensures exists i :: 0 <= i < |lines| && f(lines[i]) == Some(r)
    decreases |lines|
  {
    if f(lines[0]) != Some(r) {
      ScanFrom(lines[1..], f, r);
      var j :| 0 <= j < |lines[1..]| && f(lines[1..][j]) == Some(r);
      assert lines[j + 1] == lines[1..][j];
    }
  }

  /** Lines are read independently and in order: the records of two blocks
      of lines are the records of the first followed by those of the second. */
  lemma {:induction false} ScanAppend(a: seq<string>, b: seq<string>, f: string -> Option<Record>)
    ensures Scan(a + b, f) == Scan(a, f) + Scan(b, f)
    decreases |a|
  {
    if |a| == 0 {
      assert a + b == b;
    } else {
      assert (a + b)[0] == a[0] && (a + b)[1..] == a[1..] + b;
      ScanAppend(a[1..], b, f);
    }
  }

  /** Every record of a handled bank is the parse of one of the lines of
      the text. */
  lemma ParseLinesFrom(lines: seq<string>, bank: string, g: Grammar)
    requires GrammarFor(bank) == Some(g)
    ensures forall r :: r in ParseLines(lines, bank) ==>
              exists i :: 0 <= i < |lines| && ParseLine(lines[i], g) == Some(r)
  {
    forall r | r in ParseLines(lines, bank)
      ensures exists i :: 0 <= i < |lines| && ParseLine(lines[i], g) == Some(r)
    {
      ScanFrom(lines, LineParser(g), r);
    }
  }

  /** `parse_transactions` on two blocks of lines gives the records of the
      first block followed by those of the second. */
  lemma ParseLinesAppend(a: seq<string>, b: seq<string>, bank: string)
    ensures ParseLines(a + b, bank) == ParseLines(a, bank) + ParseLines(b, bank)
  {
    if GrammarFor(bank).Some? {
      ScanAppend(a, b, LineParser(GrammarFor(bank).value));
    }
  }

  /** A single line yields its record when it matches and nothing when it
      does not. */
  lemma ParseOneLine(line: string, bank: string, g: Grammar)
    requires GrammarFor(bank) == Some(g)
    ensures ParseLines([line], bank) == match ParseLine(line, g)
                                         case Some(r) => [r]
                                         case None => []
  {
    assert [line][1..] == [];
  }

  /** Every record of a handled bank has that bank's date shape and a
      stripped merchant. */
  lemma RecordsWellShaped(text: string, bank: string, g: Grammar)
    requires GrammarFor(bank) == Some(g)
    ensures forall r :: r in ParseTransactions(text, bank) ==>
              |r.date| == |g.date| && DateAt(r.date, g.date) && IsStripped(r.merchant)
  {
    forall r | r in ParseTransactions(text, bank)
      ensures |r.date| == |g.date| && DateAt(r.date, g.date) && IsStripped(r.merchant)
    {
      var lines := SplitLines(text);
      ParseLinesFrom(lines, bank, g);
      var i :| 0 <= i < |lines| && ParseLine(lines[i], g) == Some(r);
    }
  }
}
