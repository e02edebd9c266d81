/** The string operations the views use: `toLowerCase` (ASCII letters only),
    `String.prototype.includes`, and the decimal rendering of a count in a template
    literal such as `sub${n}`. */
module Text {

  /** `toLowerCase` on one character, for the ASCII letters A to Z. */
  function LowerChar(c: char): char {
    if 'A' <= c <= 'Z' then (c as int - 'A' as int + 'a' as int) as char else c
  }

  function Lower(s: string): (r: string)
    ensures |r| == |s|
    ensures forall i :: 0 <= i < |s| ==> r[i] == LowerChar(s[i])
  {
    seq(|s|, i requires 0 <= i < |s| => LowerChar(s[i]))
  }

  /** Lower-casing a lower-cased string changes nothing. */
  lemma LowerIdempotent(s: string)
    ensures Lower(Lower(s)) == Lower(s)
  {
  }

  /** `q` occurs in `s` starting at position `i`. */
  predicate OccursAt(s: string, q: string, i: nat) {
    i + |q| <= |s| && s[i..i + |q|] == q
  }

  /** `s.includes(q)`, searching from position `from` on. */
  function IncludesFrom(s: string, q: string, from: nat): (r: bool)
    ensures r <==> exists i :: from <= i && OccursAt(s, q, i)
    decreases |s| - from
  {
    if from + |q| > |s| then
      assert forall i :: from <= i ==> !OccursAt(s, q, i);
      false
    else if s[from..from + |q|] == q then
      assert OccursAt(s, q, from);
      true
    else
      assert forall i :: from <= i && OccursAt(s, q, i) ==> i == from || from + 1 <= i;
      IncludesFrom(s, q, from + 1)
  }

  /** `s.includes(q)`: `q` occurs somewhere in `s`. */
  function Includes(s: string, q: string): (r: bool)
    ensures r <==> exists i :: OccursAt(s, q, i)
  {
    IncludesFrom(s, q, 0)
  }

  /** Every string includes the empty string, so an empty search keeps every row. */
  lemma IncludesEmpty(s: string)
    ensures Includes(s, "")
  {
    assert OccursAt(s, "", 0);
  }

  /** `text.toLowerCase().includes(query.toLowerCase())`. */
  function MatchesQuery(text: string, query: string): bool {
    Includes(Lower(text), Lower(query))
  }

  /** Case does not matter to the search: lower-casing the text or the query first
      changes no answer. */
  lemma MatchesQueryIgnoresCase(text: string, query: string)
    ensures MatchesQuery(Lower(text), query) == MatchesQuery(text, query)
    ensures MatchesQuery(text, Lower(query)) == MatchesQuery(text, query)
  {
    LowerIdempotent(text);
    LowerIdempotent(query);
  }

  /** An empty search query matches every text. */
  lemma EmptyQueryMatches(text: string)
    ensures MatchesQuery(text, "")
  {
    IncludesEmpty(Lower(text));
  }

  predicate IsDigit(c: char) {
    '0' <= c <= '9'
  }

  function DigitChar(d: nat): (c: char)
    requires d < 10
    ensures IsDigit(c)
  {
    ('0' as int + d) as char
  }

  /** The decimal text of `n`, as `${n}` renders a non-negative integer. */
  function Decimal(n: nat): (r: string)
    ensures |r| >= 1
    ensures forall i :: 0 <= i < |r| ==> IsDigit(r[i])
    ensures n > 0 ==> r[0] != '0'
  {
    if n < 10 then [DigitChar(n)] else Decimal(n / 10) + [DigitChar(n % 10)]
  }

  /** The value of a string of decimal digits. */
  function DecimalValue(s: string): nat
    requires forall i :: 0 <= i < |s| ==> IsDigit(s[i])
  {
    if |s| == 0 then 0
    else
      assert IsDigit(s[|s| - 1]);
      DecimalValue(s[..|s| - 1]) * 10 + (s[|s| - 1] as int - '0' as int)
  }

  /** Reading back the decimal text of `n` gives `n`. */
  lemma {:induction false} DecimalRoundTrip(n: nat)
    ensures DecimalValue(Decimal(n)) == n
  {
    if n >= 10 {
      DecimalRoundTrip(n / 10);
      var r := Decimal(n);
      assert r[..|r| - 1] == Decimal(n / 10);
    }
  }

  /** Distinct counts render as distinct texts. */
  lemma DecimalInjective(m: nat, n: nat)
    requires Decimal(m) == Decimal(n)
    ensures m == n
  {
    DecimalRoundTrip(m);
    DecimalRoundTrip(n);
  }

  /** Ids of the form `prefix${n}` with distinct numbers are distinct. */
  lemma NumberedIdInjective(prefix: string, m: nat, n: nat)
    requires prefix + Decimal(m) == prefix + Decimal(n)
    ensures m == n
  {
    assert (prefix + Decimal(m))[|prefix|..] == Decimal(m);
    assert (prefix + Decimal(n))[|prefix|..] == Decimal(n);
    DecimalInjective(m, n);
  }

  /** `ids` are `prefix1`, `prefix2`, ... in order: what the id generators produce as long
      as nothing is ever removed. */
  predicate NumberedFromOne(ids: seq<string>, prefix: string) {
    forall i :: 0 <= i < |ids| ==> ids[i] == prefix + Decimal(i + 1)
  }

  /** While the ids are numbered from one, the next generated id `prefix${n + 1}` is new. */
  lemma NextNumberedIdFresh(ids: seq<string>, prefix: string)
    requires NumberedFromOne(ids, prefix)
    ensures prefix + Decimal(|ids| + 1) !in ids
  {
    if prefix + Decimal(|ids| + 1) in ids {
      var i :| 0 <= i < |ids| && ids[i] == prefix + Decimal(|ids| + 1);
      NumberedIdInjective(prefix, i + 1, |ids| + 1);
    }
  }

  /** Ids numbered from one are pairwise distinct. */
  lemma NumberedIdsDistinct(ids: seq<string>, prefix: string)
    requires NumberedFromOne(ids, prefix)
    ensures forall i, j :: 0 <= i < j < |ids| ==> ids[i] != ids[j]
  {
    forall i, j | 0 <= i < j < |ids|
      ensures ids[i] != ids[j]
    {
      if ids[i] == ids[j] {
        NumberedIdInjective(prefix, i + 1, j + 1);
      }
    }
  }
}
