# Credit-card statement analyzer: a Dafny model of the backend core

The backend of the credit-card statement analyzer turns the text of a
statement into categorised transactions and a spending summary per category:

- it recognises the issuing bank from a fixed phrase (`detect_bank`);
- it scans the statement line by line with one regular expression per bank
  (`parse_transactions`);
- it gives every merchant a category by keyword lookup (`normalize`,
  `categorize_merchant`);
- it folds the transactions into a per-category summary (`analyze_pdf`).

A second resolver in the web application matches keywords of a
category -> words configuration and then falls back to a trained classifier,
accepted only at probability 0.7 or more (`categorize_merchant` of
`app.py`). The `label-merchant` endpoint merges a JSON object of manual
labels into the stored labels.

The model covers all of that as pure Dafny functions over strings and
sequences:

| file | module | models |
|---|---|---|
| wrappers.dfy | Wrappers | `Option` and `Result` |
| text.dfy | Text | Python's `str.lower` (ASCII), `in` on strings, `isspace`/`\s`, `strip`, `splitlines` |
| normalize.dfy | Normalization | `normalize` |
| keyword_rules.dfy | KeywordRules | `categorize_merchant` of `parser.py` |
| bank.dfy | Bank | `detect_bank` |
| amount.dfy | Amount | amount text -> exact integer paise |
| grammar.dfy | Grammar | the four bank patterns with `re.match` semantics |
| parser.dfy | Parser | `parse_transactions` |
| ordered_map.dfy | OrderedMap | insertion-ordered dicts: `get`, `d[k] = v`, `update` |
| analysis.dfy | Analysis | the categorise-and-summarise tail of `analyze_pdf` |
| resolver.dfy | Resolver | `categorize_merchant` of `app.py` |
| labels.dfy | Labels | validate-and-merge of `label_merchant` |
| scenarios.dfy | Scenarios | a worked HDFC statement line read end to end |

Modelling choices:

- Amounts are exact integer paise. The integer part is read with its commas
  removed, multiplied by 100, and the two fraction digits are added.
- A regular expression is modelled twice:
  - a declarative predicate `Grammar.IsMatch` over explicit group positions;
  - a recognizer `Grammar.MatchSpan` that searches in the order the
    backtracking engine does (the greedy first `\s+` gives back characters
    one at a time; the lazy merchant grows one character at a time).

  The recognizer is proved sound, complete and first in the engine's order.
  So the merchant group is the one Python's `re.match` would report, not
  merely some merchant.
- `\s`, `str.strip` and `str.splitlines` use Python's full sets of
  whitespace and line-boundary characters. `"\r\n"` is one line break.
- Python dicts are sequences of key/value pairs in insertion order.
- The classifier is a value with its class labels and a `predict_proba`
  function that either fails (None) or returns one probability per class.

## Model

| member | source | states |
|---|---|---|
| Normalization.Normalize | backend/parser.py:9-11 | the result holds only `[a-z0-9 ]` characters and is never longer than the input |
| Normalization.NormalizeFixedIff | backend/parser.py:9-11 | a string is left unchanged by `normalize` exactly when it already holds only `[a-z0-9 ]` characters |
| Normalization.NormalizeIdempotent | backend/parser.py:9-11 | normalizing twice is normalizing once |
| Normalization.NormalizeAppend | backend/parser.py:9-11 | `normalize` works character by character: the result for a concatenation is the concatenation of the results |
| Normalization.NormalizeChar | backend/parser.py:11 | one character is kept, lower-cased, exactly when its lower-case form is in `[a-z0-9 ]`, and is deleted otherwise |
| KeywordRules.FirstHitFrom | backend/parser.py:15-17 | the scan over the rules returns the first rule whose keyword occurs, or reports that no keyword occurs |
| KeywordRules.FirstHitUnique | backend/parser.py:15-17 | at most one rule is the first keyword hit |
| KeywordRules.Categorize | backend/parser.py:13-18 | the result is the category of the first rule, in mapping order, whose keyword is a substring of the normalized merchant, and "Others" when no keyword is |
| KeywordRules.OthersIffNoHit | backend/parser.py:13-18 | when no rule maps to "Others", the result is "Others" exactly when no keyword occurs in the normalized merchant |
| KeywordRules.CategorizeNormalized | backend/parser.py:14 | categorizing an already-normalized merchant gives the same category |
| Bank.DetectBank | backend/parser.py:27-37 | each bank is returned exactly when its phrase occurs case-insensitively and no earlier phrase does, and Unknown exactly when none of the four occurs |
| Bank.DetectBankIgnoresCase | backend/parser.py:28-35 | detection does not depend on letter case |
| Bank.AxisDominates | backend/parser.py:28-29 | once "axis bank" occurs, appending any text keeps the answer Axis |
| Bank.LabelsDistinct | backend/parser.py:29-37 | the five labels are pairwise different, so a label names one bank |
| Amount.WithoutCommas | backend/parser.py:58 | removing commas leaves no comma and no more characters than before, and a digits-and-commas group becomes all digits |
| Amount.WithoutCommasChar | backend/parser.py:58 | a single comma is dropped and any other single character is kept |
| Amount.WithoutCommasAppend | backend/parser.py:58 | commas are dropped independently of their surroundings, so with `WithoutCommasChar` every non-comma character survives in order |
| Amount.Paise | backend/parser.py:58 | the amount in paise: its rupees are the integer digits read with the commas dropped, its paise the two digits after the dot |
| Amount.PaiseIgnoresComma | backend/parser.py:58 | a thousands comma inside the integer part does not change the amount |
| Amount.DecimalTextValue | backend/parser.py:51 | the decimal digits written for a number read back as that number |
| Amount.PaiseRoundTrip | backend/parser.py:58 | every non-negative paise value is the value of an amount text `<digits>.<two digits>` |
| Text.ContainsIffOccurs | backend/parser.py:16 | Python's substring test holds exactly when the needle occurs at some position |
| Text.Strip | backend/parser.py:50 | `strip` returns the part of the string between a whitespace prefix and a whitespace suffix, and the result has no whitespace at either end |
| Text.StripFixedIff | backend/parser.py:50 | `strip` leaves a string unchanged exactly when it has no whitespace at either end |
| Text.SplitLines | backend/parser.py:40 | `splitlines` produces no more lines than characters and no line holds a line-boundary character |
| Text.SplitLinesSingle | backend/parser.py:40 | a non-empty text without line breaks, including a last line with no break after it, is one line |
| Text.SplitLinesCons | backend/parser.py:40 | a line without breaks followed by any break other than `"\r"` (`"\n"`, `\x0b`, `\x0c`, `\x1c`-`\x1e`, `\x85`, `\u2028`, `\u2029`) is split off as one line, and splitting goes on after the break |
| Text.SplitLinesCrLf | backend/parser.py:40 | `"\r\n"` after a line is one break |
| Text.SplitLinesCr | backend/parser.py:40 | `"\r"` not followed by `"\n"` is a break of its own |
| Text.SplitTerminated | backend/parser.py:40 | splitting lines that are each followed by a newline gives back those lines |
| Grammar.BankGrammarsWellFormed | backend/parser.py:45-77 | the currency tags of the four patterns are non-empty and do not start with whitespace |
| Grammar.AmountAt | backend/parser.py:45 | a found amount has the shape `int.dd`, with commas allowed in the integer part only for the tagged patterns |
| Grammar.AmountAtComplete | backend/parser.py:55 | wherever an amount of the right shape starts, it is found, and its dot is the one that was found |
| Grammar.TailAt | backend/parser.py:55 | a found tail is `\s+`, then a tag, optional whitespace and an amount (or `\s+` and a bare amount for Axis) |
| Grammar.TailAtComplete | backend/parser.py:77 | a tail that matches at a position is found there |
| Grammar.SearchEnd | backend/parser.py:45 | the lazy merchant group ends where the tail matches, with no newline inside it |
| Grammar.SearchEndLazy | backend/parser.py:45 | the lazy merchant group is the shortest: the tail matches at no earlier end |
| Grammar.SearchEndFirst | backend/parser.py:66 | when the tail matches at `me` and at no end before it, the lazy merchant group ends exactly at `me` |
| Grammar.SearchEndComplete | backend/parser.py:66 | if the tail matches at some later end, the lazy search succeeds at that end or earlier |
| Grammar.SearchStart | backend/parser.py:66 | the greedy first `\s+` gives a merchant that starts after the date and leaves a tail that matches |
| Grammar.SearchStartComplete | backend/parser.py:66 | if some merchant span works, the greedy search finds one that starts later, or starts at the same place and ends no later |
| Grammar.MatchSpan | backend/parser.py:45-77 | every match found satisfies the declarative pattern (date, whitespace, merchant, tail) |
| Grammar.MatchComplete | backend/parser.py:45-77 | whenever the pattern matches the line at all, a match is found, and it comes first in the engine's order |
| Grammar.MatchLazy | backend/parser.py:55 | in the match found, the tail matches at no end earlier than the merchant's |
| Grammar.SearchStartFrom | backend/parser.py:77 | the match found by the greedy search is the lazy search's result from its merchant start |
| Grammar.RecordOf | backend/parser.py:68-74 | the record of a match: the date group of the bank's shape, the merchant group stripped, and the amount whose rupees are the integer digits without commas and whose paise are the two digits after the dot |
| Grammar.ParseLine | backend/parser.py:45-52 | a parsed record has its bank's date shape and a stripped merchant |
| Grammar.ParseLineSound | backend/parser.py:66-74 | a parsed record is built from a real match of the line: date group, stripped merchant group, amount with commas removed |
| Grammar.ParseLineIffMatch | backend/parser.py:46 | a line yields a record exactly when its bank's pattern matches it |
| Parser.GrammarFor | backend/parser.py:44-76 | a pattern is chosen exactly for the labels Axis, Amex, HDFC and ICICI |
| Parser.GrammarForFormat | backend/parser.py:42-76 | each bank `detect_bank` reports selects its own pattern and Unknown selects none |
| Parser.Scan | backend/parser.py:40-46 | the loop over the lines gives at most one record per line |
| Parser.ScanFrom | backend/parser.py:43-48 | every record of the loop comes from one of the lines |
| Parser.ScanAppend | backend/parser.py:43 | lines are read independently and in order: the records of two blocks of lines are those of the first block followed by those of the second |
| Parser.ParseLines | backend/parser.py:39-87 | at most one record per line, and no records at all for a label other than the four handled ones |
| Parser.ParseLinesFrom | backend/parser.py:43-85 | every record of a handled bank is the parse of one of the lines with that bank's pattern |
| Parser.ParseLinesAppend | backend/parser.py:43-87 | the records of two blocks of lines are the records of the first block followed by those of the second, so source order is kept |
| Parser.ParseOneLine | backend/parser.py:43-52 | one line gives its record when it matches and nothing when it does not |
| Parser.RecordsWellShaped | backend/parser.py:45-85 | every record of a handled bank has that bank's date shape and a stripped merchant |
| Parser.ParseTransactions | backend/parser.py:39-87 | at most one record per line of the text, and none for a label without a pattern |
| OrderedMap.PutGet | backend/parser.py:100 | after `d[k] = v`, key `k` holds `v` and every other key is unchanged |
| OrderedMap.PutKeys | backend/parser.py:100 | `d[k] = v` keeps the key order and appends `k` only when it is new |
| OrderedMap.PutSum | backend/parser.py:100 | `d[k] = v` changes the sum of the values by `v` minus the old value of `k` |
| OrderedMap.UpdateGet | backend/app.py:51 | after `d.update(p)`, every key of `p` has its value from `p` and every other key keeps its value |
| OrderedMap.UpdateKeys | backend/app.py:51 | the keys after `d.update(p)` are those of `d` and of `p`, and no others |
| OrderedMap.UpdateKeepsOrder | backend/app.py:51 | `d.update(p)` keeps the existing keys first, in their old order |
| OrderedMap.UpdateIdempotent | backend/app.py:51 | updating twice with the same dict is updating once |
| Analysis.Tally | backend/parser.py:99-102 | one step of the summary loop: the transaction's category gains its amount, the values grow by exactly that amount, and a dict stays a dict |
| Analysis.TallyGet | backend/parser.py:99-102 | after one step, `summary.get(c, 0)` grows by the amount for the transaction's category and is unchanged for every other category |
| Analysis.TallyKeys | backend/parser.py:99-102 | one step adds a key exactly for a category the transaction feeds: "Others" always, any other category only for a positive amount |
| Analysis.Summarize | backend/parser.py:97-102 | the summary is a dict: no category appears twice |
| Analysis.SummaryKeys | backend/parser.py:97-102 | "Others" is a key exactly when some transaction is categorised "Others" (even at amount 0); any other category is a key exactly when one of its transactions has a positive amount |
| Analysis.SummaryTotals | backend/parser.py:99-102 | each category's summary value is the total of its transactions' amounts |
| Analysis.SummaryConserves | backend/parser.py:97-102 | the summary values add up to the total of all transaction amounts |
| Analysis.Categorized | backend/parser.py:94-95 | categorising keeps date, merchant and amount; the category is that of the first rule whose keyword occurs in the normalised merchant, or "Others" when no keyword occurs |
| Analysis.CategorizeAll | backend/parser.py:94-95 | one transaction per record, in order, each keeping its record's date, merchant and amount, with the category of the first rule whose keyword occurs in its normalised merchant, or "Others" when none occurs |
| Analysis.SummaryFacts | backend/parser.py:97-102 | for any list of transactions, the summary keys are exactly the counted categories, each maps to its category total, and the values add up to the total amount |
| Analysis.BuildReport | backend/parser.py:94-108 | the report keeps the bank label, has one transaction per record in order with its category, and a summary without duplicate keys whose keys, per-category totals and grand total are those of the transactions |
| Analysis.Analyze | backend/parser.py:89-108 | the bank is `detect_bank` of the text; the transactions are the records `parse_transactions` reads for that bank, in order and each with its category |
| Analysis.UnknownBankIsEmpty | backend/parser.py:39-87 | a text naming none of the four banks yields no transactions and an empty summary |
| Scenarios.MerchantSpan | backend/parser.py:66 | on `12/03/2024 Swiggy INR 1,234.50` the lazy merchant group is exactly `Swiggy`, ending at the blank before `INR` |
| Scenarios.HdfcLineMatch | backend/parser.py:66 | the HDFC pattern matches that line with the date, merchant and tail groups at the expected positions |
| Scenarios.PaiseOfLine | backend/parser.py:69 | the amount group `1,234` with fraction `50` is 123450 paise once the comma is removed |
| Scenarios.HdfcLineParsed | backend/parser.py:65-74 | that line yields the record with date `12/03/2024`, merchant `Swiggy` and amount 123450 paise |
| Resolver.CategoryFrom | backend/app.py:17-20 | the nested keyword loops return the first category, and the first word in it, whose lowered form occurs in the lowered merchant, or report that no word occurs |
| Resolver.FirstWordHitUnique | backend/app.py:17-20 | there is at most one first keyword hit |
| Resolver.ArgMax | backend/app.py:27 | `argmax` returns the first index of a largest probability |
| Resolver.Predict | backend/app.py:23-31 | a prediction is taken only when `predict_proba` succeeds and its top probability is at least 0.7; it is the class at the first largest probability |
| Resolver.Resolve | backend/app.py:14-33 | the first keyword hit decides; with no hit the confident prediction or "Others"; with no hit and no classifier "Others"; the result is always "Others", a rule category or a class |
| Resolver.KeywordHitIgnoresModel | backend/app.py:17-22 | when a keyword occurs the result does not depend on the classifier |
| Resolver.LowConfidenceIsOthers | backend/app.py:28-33 | with no keyword hit, probabilities all below 0.7 give "Others" |
| Resolver.FailureIsOthers | backend/app.py:24-33 | with no keyword hit, a failing classifier gives "Others" and not an error |
| Resolver.ConfidentPredictionTaken | backend/app.py:25-29 | with no keyword hit, a top probability of at least 0.7 for an existing class gives that class |
| Resolver.ResolveIgnoresCase | backend/app.py:15-19 | without a classifier, the merchant's letter case does not matter |
| Labels.MergeLabels | backend/app.py:41-51 | a non-object body is rejected; a stored value that is not an object makes the merge fail; otherwise the keys are those of the body and of the store |
| Labels.StoreAfter | backend/app.py:41-53 | a rejected request leaves the store as it was; an accepted one stores an object |
| Labels.MergeGet | backend/app.py:45-51 | every label of the body is stored as sent, and every other stored label keeps its value |
| Labels.MergeKeepsOrder | backend/app.py:51 | stored labels keep their positions and new labels follow them |
| Labels.MergeIsDict | backend/app.py:51 | the merged store again has distinct keys |
| Labels.FirstLabelsStored | backend/app.py:45-51 | with no store yet, the store becomes exactly the request body |
| Labels.ResendIsNoOp | backend/app.py:41-53 | sending the same labels twice leaves the store as sending them once |

## Left out

- PDF text extraction with PyMuPDF (`extract_text_from_pdf`): it is I/O. The statement text is a parameter of `Analysis.Analyze`.
- The module-level load of `merchant_category_db.json` in `parser.py`: it is I/O. The keyword map is a parameter.
- Conversion of amounts to `float` and float summation: amounts are exact integer paise, so rounding in the summary is not modelled.
- `predict_proba`, `classes_` and training (`retrain_model`, sklearn, pandas, joblib): these are foreign libraries. The classifier is an abstract value.
- Resolver.Resolve: Python's truthiness test `if model:` is modelled as "a classifier is present". Probabilities that are NaN are not modelled.
- Flask routing, status codes, and reading and writing `merchant_labels.json`: these are I/O. The stored labels are a parameter (None when the file does not exist), and the store after a request is the result.
- Labels.MergeLabels: a store file that is not valid JSON (where `json.load` raises) is not modelled. JSON numbers are integers only.
- Labels.MergeGet: assumes the body's keys are distinct, as in any parsed JSON object.
- Text.LowerStr: lower-cases ASCII letters only. Python's `lower` also maps non-ASCII letters.
- The `\d` class is taken to be the ASCII digits. Python's `\d` also matches other Unicode decimal digits.
- `frontend/App.jsx`: it is the React user interface and regroups transactions the backend has already summarised.
- The code does not implement:
  - no expense denylist for payments and refunds;
  - manual labels do not take precedence when categorising;
  - `normalize` neither collapses nor trims whitespace;
  - a statement of an Unknown bank gives no transactions (no best-effort parsing).
