/** The four transaction-line patterns of `parse_transactions` in
    backend/parser.py and the `re.match` search that applies them.

    Every pattern has the shape

        (date)\s+(.*?)\s+TAIL

    where `date` is a fixed-width run of `\d`, `[A-Za-z]` and literal
    characters, and TAIL is either a bare amount `(\d+\.\d{2})` or a currency
    tag from an ordered list followed by `\s*([\d,]+\.\d{2})`. `re.match`
    anchors the pattern at the start of the line but not at its end.

    `MatchSpan` models the regular-expression engine's backtracking order
    literally: the first `\s+` is greedy, so the merchant start is tried from
    the end of the whitespace run downwards; the merchant `(.*?)` is lazy, so
    for each start its end is tried upwards. `IsMatch` states declaratively
    where the groups of a match lie; `MatchSpan` is proved to return a match
    (soundness), to find one whenever one exists (completeness) and to return
    the one the engine's order tries first (priority). */
module Grammar {
  import opened Wrappers
  import opened Text
  import opened Amount

  /** One position of a fixed-width date: `\d`, `[A-Za-z]` or a literal. */
  datatype DateChar = Digit | Letter | Lit(c: char)

  predicate DateCharMatches(d: DateChar, c: char)
  {
    match d
    case Digit => IsDigit(c)
    case Letter => IsAsciiLetter(c)
    case Lit(x) => c == x
  }

  /** The line starts with a date of the given shape. */
  predicate DateAt(line: string, date: seq<DateChar>)
  {
    |date| <= |line| && forall i :: 0 <= i < |date| ==> DateCharMatches(date[i], line[i])
  }

  /** What follows the second `\s+`: a bare `\d+\.\d{2}`, or one of `tags`,
      tried in order, then `\s*` and `[\d,]+\.\d{2}`. */
  datatype Tail = Bare | Tagged(tags: seq<string>)

  datatype Grammar = Grammar(date: seq<DateChar>, tail: Tail)

  /** `(\d{2}-[A-Za-z]{3})\s+(.*?)\s+(\d+\.\d{2})` */
  const AxisGrammar: Grammar :=
    Grammar([Digit, Digit, Lit('-'), Letter, Letter, Letter], Bare)

  /** `(\d{2}/\d{2})\s+(.*?)\s+(INR|Rs\.?)[\s]*([\d,]+\.\d{2})`; the optional
      dot is greedy, so "Rs." is tried before "Rs". */
  const AmexGrammar: Grammar :=
    Grammar([Digit, Digit, Lit('/'), Digit, Digit], Tagged(["INR", "Rs.", "Rs"]))

  /** `(\d{2}/\d{2}/\d{4})\s+(.*?)\s+INR\s*([\d,]+\.\d{2})` */
  const HdfcGrammar: Grammar :=
    Grammar([Digit, Digit, Lit('/'), Digit, Digit, Lit('/'), Digit, Digit, Digit, Digit],
            Tagged(["INR"]))

  /** `(\d{2}-[A-Za-z]{3}-\d{4})\s+(.*?)\s+(INR|Rs\.?)[\s]*([\d,]+\.\d{2})` */
  const IciciGrammar: Grammar :=
    Grammar([Digit, Digit, Lit('-'), Letter, Letter, Letter, Lit('-'), Digit, Digit, Digit, Digit],
            Tagged(["INR", "Rs.", "Rs"]))

  /** Tags are non-empty and do not start with whitespace, so the `\s+`
      before a tag never has to give characters back. */
  predicate WellFormed(g: Grammar)
  {
    g.tail.Tagged? ==> forall t :: t in g.tail.tags ==> |t| > 0 && !IsSpace(t[0])
  }

  lemma BankGrammarsWellFormed()
    ensures WellFormed(AxisGrammar) && WellFormed(AmexGrammar)
    ensures WellFormed(HdfcGrammar) && WellFormed(IciciGrammar)
  {
  }

  /** The characters of the integer part of an amount: `\d`, or `[\d,]`
      after a currency tag. */
  function IntClass(t: Tail): char -> bool
  {
    if t.Bare? then IsDigit else IsDigitOrComma
  }

  predicate IsDigitOrComma(c: char)
  {
    IsDigit(c) || c == ','
  }

  /** The amount group: integer part `line[a..dot]`, then ".", then two digits. */
  predicate AmountShape(line: string, t: Tail, a: int, dot: int)
  {
    && 0 <= a < dot && dot + 3 <= |line|
    && (forall k :: a <= k < dot ==> IntClass(t)(line[k]))
    && line[dot] == '.' && IsDigit(line[dot + 1]) && IsDigit(line[dot + 2])
  }

  /** Positions in the tail: the second `\s+` ends at `ws`, where tag number
      `tag` starts (Bare: no tag, `tag` is 0); the amount is `line[amt..dot + 3]`. */
  datatype TailPos = TailPos(ws: nat, tag: nat, amt: nat, dot: nat)

  predicate AfterGap(line: string, t: Tail, tp: TailPos)
  {
    match t
    case Bare =>
      tp.tag == 0 && tp.amt == tp.ws && AmountShape(line, t, tp.amt, tp.dot)
    case Tagged(tags) =>
      && tp.tag < |tags|
      && AllSpace(line, tp.ws + |tags[tp.tag]|, tp.amt)
      && line[tp.ws..tp.ws + |tags[tp.tag]|] == tags[tp.tag]
      && AmountShape(line, t, tp.amt, tp.dot)
  }

  /** `\s+TAIL` matched from position `q`. */
  predicate TailShape(line: string, t: Tail, q: int, tp: TailPos)
  {
    0 <= q < tp.ws && AllSpace(line, q, tp.ws) && AfterGap(line, t, tp)
  }

  /** A match: the merchant group is `line[ms..me]`. */
  datatype Span = Span(ms: nat, me: nat, tail: TailPos)

  /** The declarative reading of `re.match(pattern, line)` succeeding with
      the groups at `sp`: date, at least one whitespace character, a merchant
      without newlines (`.` does not match "\n"), then `\s+TAIL`. */
  predicate IsMatch(line: string, g: Grammar, sp: Span)
  {
    && DateAt(line, g.date)
    && |g.date| < sp.ms <= sp.me
    && AllSpace(line, |g.date|, sp.ms)
    && TailShape(line, g.tail, sp.me, sp.tail)
    && forall k :: sp.ms <= k < sp.me ==> line[k] != '\n'
  }

  /** The order in which the engine tries matches: longer first `\s+`
      (later merchant start) first, then shorter merchant first. */
  predicate Precedes(a: Span, b: Span)
  {
    a.ms > b.ms || (a.ms == b.ms && a.me <= b.me)
  }

  function AmountAt(line: string, t: Tail, a: nat): (dot: Option<nat>)
    requires a <= |line|
    ensures dot.Some? ==> AmountShape(line, t, a, dot.value)
  {
    var b := RunEnd(line, a, IntClass(t));
    if a < b && b + 3 <= |line| && line[b] == '.' && IsDigit(line[b + 1]) && IsDigit(line[b + 2])
    then Some(b)
    else None
  }

  /** An amount is found wherever one starts, and it is the only one there. */
  lemma AmountAtComplete(line: string, t: Tail, a: nat, dot: nat)
    requires AmountShape(line, t, a, dot)
    ensures AmountAt(line, t, a) == Some(dot)
  {
    RunEndAt(line, a, dot, IntClass(t));
  }

  /** Tries `tags[i..]` in order at `ws`. */
  function TagFrom(line: string, tags: seq<string>, ws: nat, i: nat): (r: Option<TailPos>)
    requires ws <= |line| && i <= |tags|
    ensures r.Some? ==> r.value.ws == ws && AfterGap(line, Tagged(tags), r.value)
    decreases |tags| - i
  {
    if i == |tags| then None
    else if StartsWith(line[ws..], tags[i]) then
      assert line[ws..ws + |tags[i]|] == line[ws..][..|tags[i]|];
      var amt := RunEnd(line, ws + |tags[i]|, IsSpace);
      match AmountAt(line, Tagged(tags), amt)
      case Some(dot) => Some(TailPos(ws, i, amt, dot))
      case None => TagFrom(line, tags, ws, i + 1)
    else TagFrom(line, tags, ws, i + 1)
  }

  /** `\s+TAIL` from position `q`. */
  function TailAt(line: string, t: Tail, q: nat): (r: Option<TailPos>)
    requires q <= |line|
    ensures r.Some? ==> TailShape(line, t, q, r.value)
  {
    if q < |line| && IsSpace(line[q]) then
      var ws := RunEnd(line, q, IsSpace);
      match t
      case Bare =>
        (match AmountAt(line, t, ws)
         case Some(dot) => Some(TailPos(ws, 0, ws, dot))
         case None => None)
      case Tagged(tags) => TagFrom(line, tags, ws, 0)
    else None
  }

  /** Tag `i` matching at `ws` and followed by an amount ends the search. */
  lemma TagFromHere(line: string, tags: seq<string>, ws: nat, i: nat, amt: nat, dot: nat)
    requires ws <= |line| && i < |tags|
    requires StartsWith(line[ws..], tags[i])
    requires RunEnd(line, ws + |tags[i]|, IsSpace) == amt
    requires AmountAt(line, Tagged(tags), amt) == Some(dot)
    ensures TagFrom(line, tags, ws, i) == Some(TailPos(ws, i, amt, dot))
  {
  }

  lemma {:induction false} TagFromComplete(line: string, tags: seq<string>, ws: nat, i: nat, tp: TailPos)
    requires forall t :: t in tags ==> |t| > 0 && !IsSpace(t[0])
    requires ws <= |line| && i <= tp.tag
    requires tp.ws == ws && AfterGap(line, Tagged(tags), tp)
    ensures TagFrom(line, tags, ws, i).Some?
    decreases tp.tag - i
  {
    if i == tp.tag {
      var tag := tags[i];
      assert StartsWith(line[ws..], tag) by {
        assert line[ws..][..|tag|] == line[ws..ws + |tag|];
      }
      RunEndAt(line, ws + |tag|, tp.amt, IsSpace);
      AmountAtComplete(line, Tagged(tags), tp.amt, tp.dot);
      TagFromHere(line, tags, ws, i, tp.amt, tp.dot);
    } else {
      TagFromComplete(line, tags, ws, i + 1, tp);
    }
  }

  /** Whenever `\s+TAIL` matches from `q`, `TailAt` finds a match there. */
  lemma TailAtComplete(line: string, g: Grammar, q: nat, tp: TailPos)
    requires WellFormed(g) && TailShape(line, g.tail, q, tp)
    ensures TailAt(line, g.tail, q).Some?
  {
    match g.tail
    case Bare =>
      RunEndAt(line, q, tp.ws, IsSpace);
      AmountAtComplete(line, g.tail, tp.amt, tp.dot);
    case Tagged(tags) =>
      assert tags[tp.tag] in tags;
      assert line[tp.ws] == tags[tp.tag][0];
      RunEndAt(line, q, tp.ws, IsSpace);
      TagFromComplete(line, tags, tp.ws, 0, tp);
  }

  /** Where `\s+TAIL` matches, as the search sees it: the tail found at
      each end position of the merchant. */
  function TailFinder(line: string, t: Tail): nat -> Option<TailPos>
  {
    (k: nat) => if k <= |line| then TailAt(line, t, k) else None
  }

  /** The lazy merchant: for a fixed start `ms`, the end is tried upwards
      from `q` and stops at a newline. */
  function SearchEnd(line: string, tails: nat -> Option<TailPos>, ms: nat, q: nat): (r: Option<Span>)
    requires ms <= q <= |line|
    requires forall k :: ms <= k < q ==> line[k] != '\n'
    ensures r.Some? ==> r.value.ms == ms && q <= r.value.me < |line|
    ensures r.Some? ==> tails(r.value.me) == Some(r.value.tail)
    ensures r.Some? ==> forall k :: ms <= k < r.value.me ==> line[k] != '\n'
    decreases |line| - q
  {
    if q == |line| then None
    else match tails(q)
      case Some(tp) => Some(Span(ms, q, tp))
      case None => if line[q] == '\n' then None else SearchEnd(line, tails, ms, q + 1)
  }

  /** The merchant is the shortest one: the tail matches at no earlier end. */
  lemma {:induction false} SearchEndLazy(line: string, tails: nat -> Option<TailPos>, ms: nat, q: nat, k: nat)
    requires ms <= q <= |line|
    requires forall j :: ms <= j < q ==> line[j] != '\n'
    requires SearchEnd(line, tails, ms, q).Some?
    requires q <= k < SearchEnd(line, tails, ms, q).value.me
    ensures tails(k).None?
    decreases |line| - q
  {
    if k > q {
      SearchEndLazy(line, tails, ms, q + 1, k);
    }
  }

  /** The greedy first `\s+`: merchant starts tried from `ms` downwards to
      just after the date, which ends at `start`. */
  function SearchStart(line: string, tails: nat -> Option<TailPos>, start: nat, ms: nat): (r: Option<Span>)
    requires start <= ms <= |line|
    ensures r.Some? ==> start < r.value.ms <= ms && r.value.ms <= r.value.me < |line|
    ensures r.Some? ==> tails(r.value.me) == Some(r.value.tail)
    ensures r.Some? ==> forall k :: r.value.ms <= k < r.value.me ==> line[k] != '\n'
    decreases ms
  {
    if ms == start then None
    else match SearchEnd(line, tails, ms, ms)
      case Some(sp) => Some(sp)
      case None => SearchStart(line, tails, start, ms - 1)
  }

  /** `re.match(pattern, line)`: the groups of the match the engine finds. */
  function MatchSpan(line: string, g: Grammar): (r: Option<Span>)
    ensures r.Some? ==> IsMatch(line, g, r.value)
  {
    if DateAt(line, g.date) then
      var r := SearchStart(line, TailFinder(line, g.tail), |g.date|, RunEnd(line, |g.date|, IsSpace));
      assert r.Some? ==> TailAt(line, g.tail, r.value.me) == Some(r.value.tail);
      r
    else None
  }

  lemma {:induction false} SearchEndComplete(line: string, tails: nat -> Option<TailPos>, ms: nat, q: nat, me: nat)
    requires ms <= q <= me < |line|
    requires forall k :: ms <= k < me ==> line[k] != '\n'
    requires tails(me).Some?
    ensures SearchEnd(line, tails, ms, q).Some? && SearchEnd(line, tails, ms, q).value.me <= me
    decreases me - q
  {
    if q < me && tails(q).None? {
      SearchEndComplete(line, tails, ms, q + 1, me);
    }
  }

  /** The lazy search stops exactly at the first end where a tail matches. */
  lemma {:induction false} SearchEndFirst(line: string, tails: nat -> Option<TailPos>, ms: nat, q: nat, me: nat)
    requires ms <= q <= me < |line|
    requires forall k :: ms <= k < me ==> line[k] != '\n'
    requires forall k :: q <= k < me ==> tails(k).None?
    requires tails(me).Some?
    ensures SearchEnd(line, tails, ms, q) == Some(Span(ms, me, tails(me).value))
    decreases me - q
  {
    if q < me {
      SearchEndFirst(line, tails, ms, q + 1, me);
    }
  }

  lemma {:induction false} SearchStartComplete(line: string, tails: nat -> Option<TailPos>, start: nat, ms: nat, sp: Span)
    requires ms <= |line|
    requires start < sp.ms <= ms && sp.ms <= sp.me < |line|
    requires forall k :: sp.ms <= k < sp.me ==> line[k] != '\n'
    requires tails(sp.me).Some?
    ensures SearchStart(line, tails, start, ms).Some?
    ensures Precedes(SearchStart(line, tails, start, ms).value, sp)
    decreases ms
  {
    if ms == sp.ms {
      SearchEndComplete(line, tails, ms, ms, sp.me);
    } else if SearchEnd(line, tails, ms, ms).None? {
      SearchStartComplete(line, tails, start, ms - 1, sp);
    }
  }

  /** Completeness and priority: whenever the pattern matches the line at
      all, `MatchSpan` finds a match, and the one it finds comes first in the
      engine's order. With soundness (`MatchSpan`'s postcondition) this is
      exactly the match `re.match` reports. */
  lemma MatchComplete(line: string, g: Grammar, sp: Span)
    requires WellFormed(g) && IsMatch(line, g, sp)
    ensures MatchSpan(line, g).Some?
    ensures Precedes(MatchSpan(line, g).value, sp)
  {
    var e := RunEnd(line, |g.date|, IsSpace);
    assert sp.ms <= e;
    TailAtComplete(line, g, sp.me, sp.tail);
    assert TailFinder(line, g.tail)(sp.me).Some?;
    SearchStartComplete(line, TailFinder(line, g.tail), |g.date|, e, sp);
  }

  /** The merchant group of the match found is the shortest one for its
      start: `\s+TAIL` matches at no earlier end. */
  lemma MatchLazy(line: string, g: Grammar, k: nat)
    requires MatchSpan(line, g).Some?
    requires MatchSpan(line, g).value.ms <= k < MatchSpan(line, g).value.me
    ensures TailAt(line, g.tail, k).None?
  {
    var sp := MatchSpan(line, g).value;
    var tails := TailFinder(line, g.tail);
    var e := RunEnd(line, |g.date|, IsSpace);
    SearchStartFrom(line, tails, |g.date|, e);
    SearchEndLazy(line, tails, sp.ms, sp.ms, k);
  }

  /** The match `SearchStart` returns is the one `SearchEnd` finds from its
      start. */
  lemma {:induction false} SearchStartFrom(line: string, tails: nat -> Option<TailPos>, start: nat, ms: nat)
    requires start <= ms <= |line|
    requires SearchStart(line, tails, start, ms).Some?
    ensures var sp := SearchStart(line, tails, start, ms).value;
            SearchEnd(line, tails, sp.ms, sp.ms) == Some(sp)
    decreases ms
  {
    if SearchEnd(line, tails, ms, ms).None? {
      SearchStartFrom(line, tails, start, ms - 1);
    }
  }

  /** One transaction as `parse_transactions` records it: the date text as
      matched, the stripped merchant, and the amount in paise. */
  datatype Record = Record(date: string, merchant: string, amount: nat)

  /** The date group. */
  function DateGroup(line: string, g: Grammar): (s: string)
    requires DateAt(line, g.date)
    ensures s == line[..|g.date|] && DateAt(s, g.date)
  {
    line[..|g.date|]
  }

  /** The integer digits of the amount group, commas included. */
  function IntGroup(line: string, g: Grammar, sp: Span): (s: string)
    requires IsMatch(line, g, sp)
    ensures DigitsAndCommas(s)
  {
    assert AmountShape(line, g.tail, sp.tail.amt, sp.tail.dot);
    line[sp.tail.amt..sp.tail.dot]
  }

  /** The two digits after the dot of the amount group. */
  function FracGroup(line: string, g: Grammar, sp: Span): (s: string)
    requires IsMatch(line, g, sp)
    ensures |s| == 2 && AllDigits(s)
  {
    assert AmountShape(line, g.tail, sp.tail.amt, sp.tail.dot);
    line[sp.tail.dot + 1..sp.tail.dot + 3]
  }

  /** The record built from the groups of a match: the date group, the
      merchant group stripped, and the amount group in paise, whose rupees
      are the integer digits with the commas dropped and whose paise are the
      two digits after the dot. */
  function RecordOf(line: string, g: Grammar, sp: Span): (r: Record)
    requires IsMatch(line, g, sp)
    ensures r.date == line[..|g.date|] && DateAt(r.date, g.date)
    ensures IsStripped(r.merchant)
    ensures r.amount / 100 == DecimalValue(WithoutCommas(IntGroup(line, g, sp)))
    ensures r.amount % 100 == DecimalValue(FracGroup(line, g, sp))
  {
    var date := DateGroup(line, g);
    Record(date, Strip(line[sp.ms..sp.me]), Paise(IntGroup(line, g, sp), FracGroup(line, g, sp)))
  }

  /** One line against one pattern: a record when the line matches. The
      date has the pattern's shape, the merchant is stripped, and the record
      is read off a match of the pattern. */
  function ParseLine(line: string, g: Grammar): (r: Option<Record>)
    ensures r.Some? ==> |r.value.date| == |g.date| && DateAt(r.value.date, g.date)
    ensures r.Some? ==> IsStripped(r.value.merchant)
  {
    match MatchSpan(line, g)
    case Some(sp) => Some(RecordOf(line, g, sp))
    case None => None
  }

  /** A parsed record is read off a match of the pattern. */
  lemma ParseLineSound(line: string, g: Grammar)
    ensures ParseLine(line, g).Some? ==>
              exists sp :: IsMatch(line, g, sp) && ParseLine(line, g).value == RecordOf(line, g, sp)
  {
    if ParseLine(line, g).Some? {
      var sp := MatchSpan(line, g).value;
      assert IsMatch(line, g, sp);
    }
  }

  /** A line yields a record exactly when the pattern matches it. */
  lemma ParseLineIffMatch(line: string, g: Grammar)
    requires WellFormed(g)
    ensures ParseLine(line, g).Some? <==> exists sp :: IsMatch(line, g, sp)
  {
    ParseLineSound(line, g);
    if exists sp :: IsMatch(line, g, sp) {
      var sp :| IsMatch(line, g, sp);
      MatchComplete(line, g, sp);
    }
  }
}
