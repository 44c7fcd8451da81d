/** `normalize` of backend/parser.py: lower-case the merchant, then delete
    every character outside `[a-z0-9 ]`. Whitespace is neither collapsed nor
    trimmed. */
module Normalization {
  import opened Text

  /** The characters `[a-z0-9 ]` that survive normalisation. */
  predicate IsKept(c: char)
  {
    'a' <= c <= 'z' || IsDigit(c) || c == ' '
  }

  predicate AllKept(s: string)
  {
    forall i :: 0 <= i < |s| ==> IsKept(s[i])
  }

  /** `re.sub(r'[^a-z0-9 ]+', '', s)`: the kept characters of `s`, in order. */
  function Keep(s: string): (r: string)
    ensures |r| <= |s|
    ensures AllKept(r)
    decreases |s|
  {
    if |s| == 0 then ""
    else (if IsKept(s[0]) then [s[0]] else "") + Keep(s[1..])
  }

  function Normalize(text: string): (r: string)
    ensures AllKept(r)
    ensures |r| <= |text|
  {
    Keep(LowerStr(text))
  }

  lemma {:induction false} KeepFixed(s: string)
    requires AllKept(s)
    ensures Keep(s) == s
    decreases |s|
  {
    if |s| > 0 {
      KeepFixed(s[1..]);
      assert s == [s[0]] + s[1..];
    }
  }

  /** Normalisation leaves exactly the strings over `[a-z0-9 ]` unchanged. */
  lemma NormalizeFixedIff(s: string)
    ensures Normalize(s) == s <==> AllKept(s)
  {
    if AllKept(s) {
      assert LowerStr(s) == s;
      KeepFixed(s);
    }
  }

  /** Normalising twice is normalising once. */
  lemma NormalizeIdempotent(s: string)
    ensures Normalize(Normalize(s)) == Normalize(s)
  {
    NormalizeFixedIff(Normalize(s));
  }

  lemma {:induction false} KeepAppend(a: string, b: string)
    ensures Keep(a + b) == Keep(a) + Keep(b)
    decreases |a|
  {
    if |a| > 0 {
      assert (a + b)[1..] == a[1..] + b;
      KeepAppend(a[1..], b);
    } else {
      assert a + b == b;
    }
  }

  /** Normalisation works character by character: it distributes over
      concatenation, and a single character is lowered and kept or dropped.
      Together these determine `Normalize` on every string. */
  lemma NormalizeAppend(a: string, b: string)
    ensures Normalize(a + b) == Normalize(a) + Normalize(b)
  {
    LowerStrAppend(a, b);
    KeepAppend(LowerStr(a), LowerStr(b));
  }

  lemma NormalizeChar(c: char)
    ensures Normalize([c]) == if IsKept(Lower(c)) then [Lower(c)] else []
  {
    assert LowerStr([c]) == [Lower(c)];
    assert [Lower(c)][1..] == [];
  }
}
