/** Worked statement lines: what the model reads from concrete input. */
module Scenarios {
  import opened Wrappers
  import opened Text
  import opened Amount
  import opened Grammar

  const HdfcLine: string := "12/03/2024 Swiggy INR 1,234.50"

  function HdfcTails(): nat -> Option<TailPos>
  {
    TailFinder(HdfcLine, HdfcGrammar.tail)
  }

  /** No tail starts inside the word "Swiggy". */
  lemma NoTailInMerchant(k: nat)
    requires 11 <= k < 17
    ensures HdfcTails()(k).None?
    ensures HdfcLine[k] != '\n'
  {
    HdfcSlices();
    var c := HdfcLine[k];
    assert c == "Swiggy"[k - 11];
    assert c == 'S' || c == 'w' || c == 'i' || c == 'g' || c == 'y';
    assert !IsSpace(c);
    assert TailAt(HdfcLine, HdfcGrammar.tail, k).None?;
  }

  lemma HdfcSlices()
    ensures HdfcLine[..10] == "12/03/2024"
    ensures HdfcLine[11..17] == "Swiggy"
    ensures HdfcLine[22..27] == "1,234"
    ensures HdfcLine[28..30] == "50"
  {
  }

  lemma DecimalValue1234()
    ensures DecimalValue("1234") == 1234
  {
    assert "1234"[..3] == "123" && "123"[..2] == "12" && "12"[..1] == "1" && "1"[..0] == "";
  }

  lemma DecimalValue50()
    ensures DecimalValue("50") == 50
  {
    assert "50"[..1] == "5" && "5"[..0] == "";
  }

  lemma WithoutCommas1234()
    ensures WithoutCommas("1,234") == "1234"
  {
    assert "1,234"[1..] == ",234" && ",234"[1..] == "234" && "234"[1..] == "34";
    assert "34"[1..] == "4" && "4"[1..] == "";
  }

  /** The amount "1,234.50" starts at position 22. */
  lemma AmountOfLine()
    ensures AmountAt(HdfcLine, HdfcGrammar.tail, 22) == Some(27)
  {
    var line := HdfcLine;
    HdfcSlices();
    assert line[27] == '.' && line[28] == '5' && line[29] == '0';
    assert forall k :: 22 <= k < 27 ==> IsDigitOrComma(line[k]) by {
      forall k | 22 <= k < 27 ensures IsDigitOrComma(line[k]) {
        assert line[k] == "1,234"[k - 22];
      }
    }
    RunEndAt(line, 22, 27, IsDigitOrComma);
  }

  /** The tag "INR" at 18 is followed by a blank and the amount at 22. */
  lemma TagOfLine()
    ensures TagFrom(HdfcLine, ["INR"], 18, 0) == Some(HdfcSpan.tail)
  {
    var line := HdfcLine;
    assert line[18..][..3] == "INR";
    assert line[21] == ' ' && line[22] == '1';
    assert RunEnd(line, 22, IsSpace) == 22;
    assert RunEnd(line, 21, IsSpace) == 22;
    AmountOfLine();
  }

  /** The tail " INR 1,234.50" starts at the blank after the merchant. */
  lemma TailAfterMerchant()
    ensures HdfcTails()(17) == Some(HdfcSpan.tail)
  {
    var line := HdfcLine;
    assert line[17] == ' ' && line[18] == 'I';
    assert RunEnd(line, 18, IsSpace) == 18;
    assert RunEnd(line, 17, IsSpace) == 18;
    TagOfLine();
  }

  /** The lazy merchant of the line is "Swiggy". */
  lemma MerchantSpan()
    ensures SearchEnd(HdfcLine, HdfcTails(), 11, 11) == Some(HdfcSpan)
  {
    forall k | 11 <= k < 17
      ensures HdfcTails()(k).None? && HdfcLine[k] != '\n'
    {
      NoTailInMerchant(k);
    }
    TailAfterMerchant();
    SearchEndFirst(HdfcLine, HdfcTails(), 11, 11, 17);
  }

  const HdfcSpan: Span := Span(11, 17, TailPos(18, 0, 22, 27))

  /** The date "12/03/2024" has the HDFC shape. */
  lemma DateOfLine()
    ensures DateAt(HdfcLine, HdfcGrammar.date)
  {
    var line := HdfcLine;
    var date := HdfcGrammar.date;
    forall i | 0 <= i < |date|
      ensures DateCharMatches(date[i], line[i])
    {
      assert line[i] == "12/03/2024"[i];
    }
  }

  /** The date "12/03/2024" fits, and the blank after it ends at 11. */
  lemma DateThenBlank()
    ensures DateAt(HdfcLine, HdfcGrammar.date)
    ensures RunEnd(HdfcLine, |HdfcGrammar.date|, IsSpace) == 11
  {
    DateOfLine();
    var line := HdfcLine;
    assert line[10] == ' ' && line[11] == 'S';
    RunEndAt(line, 10, 11, IsSpace);
  }

  /** The greedy start is the first position after the blank. */
  lemma GreedyStart()
    ensures SearchStart(HdfcLine, HdfcTails(), 10, 11) == Some(HdfcSpan)
  {
    MerchantSpan();
  }

  /** The match of the HDFC pattern on the line. */
  lemma HdfcLineMatch()
    ensures MatchSpan(HdfcLine, HdfcGrammar) == Some(HdfcSpan)
  {
    DateThenBlank();
    GreedyStart();
  }

  /** The amount group "1,234" and fraction "50" make 123450 paise. */
  lemma PaiseOfLine()
    ensures DigitsAndCommas(HdfcLine[22..27]) && AllDigits(HdfcLine[28..30])
    ensures Paise(HdfcLine[22..27], HdfcLine[28..30]) == 123450
  {
    HdfcSlices();
    WithoutCommas1234();
    DecimalValue1234();
    DecimalValue50();
  }

  lemma StripMerchant()
    ensures Strip(HdfcLine[11..17]) == "Swiggy"
  {
    var m := "Swiggy";
    assert m[0] == 'S' && m[|m| - 1] == 'y';
    assert IsStripped(m);
    StripFixedIff(m);
    HdfcSlices();
  }

  /** The record read off the match. */
  lemma RecordOfLine()
    requires IsMatch(HdfcLine, HdfcGrammar, HdfcSpan)
    ensures RecordOf(HdfcLine, HdfcGrammar, HdfcSpan) == Record("12/03/2024", "Swiggy", 123450)
  {
    HdfcSlices();
    StripMerchant();
    PaiseOfLine();
  }

  /** An HDFC line: the date, the merchant up to the blank before "INR", and
      the amount with its comma removed, in paise. */
  lemma HdfcLineParsed()
    ensures ParseLine(HdfcLine, HdfcGrammar) == Some(Record("12/03/2024", "Swiggy", 123450))
  {
    HdfcLineMatch();
    RecordOfLine();
  }
}
