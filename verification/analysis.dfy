/** The pure tail of `analyze_pdf` in backend/parser.py: detect the bank,
    parse the lines, categorise every record, then fold the per-category
    summary. The summary adds an amount under its category when the category
    is not "Others" and the amount is positive, and always adds it under
    "Others" when the category is "Others". */
module Analysis {
  import opened Wrappers
  import opened OrderedMap
  import opened Grammar
  import opened Bank
  import opened Parser
  import opened KeywordRules
  import opened Normalization

  datatype Transaction = Transaction(date: string, merchant: string, amount: nat, category: string)

  /** The dict `analyze_pdf` returns. */
  datatype Report = Report(bank: string, summary: seq<(string, nat)>, transactions: seq<Transaction>)

  /** The transaction counts towards the summary entry for `c`. */
  predicate Feeds(t: Transaction, c: string)
  {
    t.category == c && (c == Others || t.amount > 0)
  }

  /** Some transaction creates the summary entry for `c`. */
  predicate Counted(txns: seq<Transaction>, c: string)
  {
    exists i :: 0 <= i < |txns| && Feeds(txns[i], c)
  }

  function TotalAmount(txns: seq<Transaction>): nat
  {
    if |txns| == 0 then 0 else TotalAmount(txns[..|txns| - 1]) + txns[|txns| - 1].amount
  }

  /** Sum of the amounts of the transactions in category `c`. */
  function CategoryTotal(txns: seq<Transaction>, c: string): nat
  {
    if |txns| == 0 then 0
    else
      var last := txns[|txns| - 1];
      CategoryTotal(txns[..|txns| - 1], c) + (if last.category == c then last.amount else 0)
  }

  /** One step of the summary loop: the transaction's category gains its
      amount, so the values grow by exactly that amount, and a dict stays a
      dict. */
  function Tally(s: seq<(string, nat)>, t: Transaction): (r: seq<(string, nat)>)
    ensures GetOrZero(r, t.category) == GetOrZero(s, t.category) + t.amount
    ensures SumValues(r) == SumValues(s) + t.amount
    ensures DistinctKeys(s) ==> DistinctKeys(r)
  {
    if t.category != Others && t.amount > 0 then
      var v := GetOrZero(s, t.category) + t.amount;
      PutGetOrZero(s, t.category, v, t.category);
      PutSum(s, t.category, v);
      if DistinctKeys(s) then PutDistinct<nat>(s, t.category, v); Put<nat>(s, t.category, v)
      else Put<nat>(s, t.category, v)
    else if t.category == Others then
      var v := GetOrZero(s, Others) + t.amount;
      PutGetOrZero(s, Others, v, Others);
      PutSum(s, Others, v);
      if DistinctKeys(s) then PutDistinct<nat>(s, Others, v); Put<nat>(s, Others, v)
      else Put<nat>(s, Others, v)
    else s
  }

  lemma TallyGet(s: seq<(string, nat)>, t: Transaction, c: string)
    ensures GetOrZero(Tally(s, t), c) == GetOrZero(s, c) + (if t.category == c then t.amount else 0)
  {
    if t.category != Others && t.amount > 0 {
      PutGetOrZero(s, t.category, GetOrZero(s, t.category) + t.amount, c);
    } else if t.category == Others {
      PutGetOrZero(s, Others, GetOrZero(s, Others) + t.amount, c);
    }
  }

  lemma TallyKeys(s: seq<(string, nat)>, t: Transaction, c: string)
    ensures c in Keys(Tally(s, t)) <==> c in Keys(s) || Feeds(t, c)
  {
    var k := t.category;
    if (k != Others && t.amount > 0) || k == Others {
      var v := GetOrZero(s, k) + t.amount;
      assert Tally(s, t) == Put<nat>(s, k, v);
      PutKeys<nat>(s, k, v);
      assert c in Keys(s) + [k] <==> c in Keys(s) || c == k;
    } else {
      assert Tally(s, t) == s;
    }
  }

  /** The summary loop of `analyze_pdf`, over the transactions in order. */
  function Summarize(txns: seq<Transaction>): (s: seq<(string, nat)>)
    ensures DistinctKeys(s)
    decreases |txns|
  {
    if |txns| == 0 then []
    else
      Tally(Summarize(txns[..|txns| - 1]), txns[|txns| - 1])
  }

  lemma CountedSnoc(txns: seq<Transaction>, c: string)
    requires |txns| > 0
    ensures Counted(txns, c) <==> Counted(txns[..|txns| - 1], c) || Feeds(txns[|txns| - 1], c)
  {
    var init := txns[..|txns| - 1];
    if Counted(init, c) {
      var i :| 0 <= i < |init| && Feeds(init[i], c);
      assert txns[i] == init[i];
    }
    if Counted(txns, c) && !Feeds(txns[|txns| - 1], c) {
      var i :| 0 <= i < |txns| && Feeds(txns[i], c);
      assert init[i] == txns[i];
    }
  }

  /** The summary has an entry for `c` exactly when some transaction feeds
      it: "Others" as soon as one transaction is categorised "Others", even
      at amount 0, and any other category only for a positive amount. */
  lemma {:induction false} SummaryKeys(txns: seq<Transaction>, c: string)
    ensures c in Keys(Summarize(txns)) <==> Counted(txns, c)
    decreases |txns|
  {
    if |txns| > 0 {
      SummaryKeys(txns[..|txns| - 1], c);
      TallyKeys(Summarize(txns[..|txns| - 1]), txns[|txns| - 1], c);
      CountedSnoc(txns, c);
    }
  }

  /** `summary.get(c, 0)` is the total amount of the transactions in `c`. */
  lemma {:induction false} SummaryTotals(txns: seq<Transaction>, c: string)
    ensures GetOrZero(Summarize(txns), c) == CategoryTotal(txns, c)
    decreases |txns|
  {
    if |txns| > 0 {
      SummaryTotals(txns[..|txns| - 1], c);
      TallyGet(Summarize(txns[..|txns| - 1]), txns[|txns| - 1], c);
    }
  }

  /** Conservation: the summary's values add up to the total amount of all
      transactions. Skipped transactions have amount 0. */
  lemma {:induction false} SummaryConserves(txns: seq<Transaction>)
    ensures SumValues(Summarize(txns)) == TotalAmount(txns)
    decreases |txns|
  {
    if |txns| > 0 {
      SummaryConserves(txns[..|txns| - 1]);
    }
  }

  /** A parsed record with `category` set by `categorize_merchant`: date,
      merchant and amount unchanged; the category of the first rule whose
      keyword occurs in the normalised merchant, or "Others". */
  function Categorized(rules: KeywordMap, r: Record): (t: Transaction)
    ensures t.date == r.date && t.merchant == r.merchant && t.amount == r.amount
    ensures NoHit(rules, Normalize(r.merchant)) ==> t.category == Others
    ensures forall i :: IsFirstHit(rules, Normalize(r.merchant), i) ==> t.category == rules[i].1
    ensures t.category == Categorize(rules, r.merchant)
  {
    Transaction(r.date, r.merchant, r.amount, Categorize(rules, r.merchant))
  }

  /** The loop of `analyze_pdf` that sets every record's category, in
      order. */
  function CategorizeAll(rules: KeywordMap, records: seq<Record>): (txns: seq<Transaction>)
    ensures |txns| == |records|
    ensures forall i :: 0 <= i < |records| ==>
              && txns[i].date == records[i].date
              && txns[i].merchant == records[i].merchant
              && txns[i].amount == records[i].amount
    ensures forall i :: 0 <= i < |records| && NoHit(rules, Normalize(records[i].merchant)) ==>
              txns[i].category == Others
    ensures forall i, j :: 0 <= i < |records| && IsFirstHit(rules, Normalize(records[i].merchant), j) ==>
              txns[i].category == rules[j].1
    ensures forall i :: 0 <= i < |records| ==> txns[i] == Categorized(rules, records[i])
  {
    seq(|records|, i requires 0 <= i < |records| => Categorized(rules, records[i]))
  }

  /** The summary facts for every category at once. */
  lemma SummaryFacts(txns: seq<Transaction>)
    ensures forall c :: c in Keys(Summarize(txns)) <==> Counted(txns, c)
    ensures forall c :: GetOrZero(Summarize(txns), c) == CategoryTotal(txns, c)
    ensures SumValues(Summarize(txns)) == TotalAmount(txns)
  {
    forall c ensures c in Keys(Summarize(txns)) <==> Counted(txns, c) {
      SummaryKeys(txns, c);
    }
    forall c ensures GetOrZero(Summarize(txns), c) == CategoryTotal(txns, c) {
      SummaryTotals(txns, c);
    }
    SummaryConserves(txns);
  }

  /** The report for a bank label and its parsed records: the records in
      order, each categorised; a summary with an entry exactly for the
      categories the transactions feed, each holding its category's total,
      and adding up to the total of all transactions. */
  function BuildReport(rules: KeywordMap, bank: string, records: seq<Record>): (rep: Report)
    ensures rep.bank == bank
    ensures |rep.transactions| == |records|
    ensures forall i :: 0 <= i < |records| ==> rep.transactions[i] == Categorized(rules, records[i])
    ensures DistinctKeys(rep.summary)
    ensures forall c :: c in Keys(rep.summary) <==> Counted(rep.transactions, c)
    ensures forall c :: GetOrZero(rep.summary, c) == CategoryTotal(rep.transactions, c)
    ensures SumValues(rep.summary) == TotalAmount(rep.transactions)
  {
    var txns := CategorizeAll(rules, records);
    SummaryFacts(txns);
    Report(bank, Summarize(txns), txns)
  }

  /** `analyze_pdf` after text extraction: the detected bank, and the report
      built from the records `parse_transactions` finds for it. */
  function Analyze(rules: KeywordMap, text: string): (rep: Report)
    ensures rep.bank == DetectBank(text).Label()
    ensures |rep.transactions| == |ParseTransactions(text, rep.bank)|
    ensures forall i :: 0 <= i < |rep.transactions| ==>
              rep.transactions[i] == Categorized(rules, ParseTransactions(text, rep.bank)[i])
  {
    var bank := DetectBank(text).Label();
    BuildReport(rules, bank, ParseTransactions(text, bank))
  }

  /** A text naming none of the four banks has no transactions and an empty
      summary. */
  lemma UnknownBankIsEmpty(rules: KeywordMap, text: string)
    requires DetectBank(text) == Unknown
    ensures Analyze(rules, text).transactions == []
    ensures Analyze(rules, text).summary == []
  {
    assert GrammarFor(Unknown.Label()).None?;
  }
}
