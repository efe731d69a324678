/**
 * The request paths the status pollers send for the last builds of a build
 * type, and a parser that reads them back.
 *
 * The poller of the wall asks for
 * `builds/?locator=buildType:<id>,running:any,count:<n>,branch:<branch>`,
 * where a build type without a branch asks for `default:yes`; the API 8.1
 * poller asks for the same path without the branch field.
 */
module Locator {
  import opened Wrappers

  const Prefix: string := "builds/?locator=buildType:"
  const CountField: string := ",running:any,count:"
  const BranchField: string := ",branch:"
  const DefaultBranch: string := "default:yes"

  // ---------------------------------------------------------------------------
  // Decimal numbers
  // ---------------------------------------------------------------------------

  predicate IsDigit(c: char) {
    '0' <= c <= '9'
  }

  function DigitChar(d: nat): (c: char)
    requires d < 10
    ensures IsDigit(c) && c as int - '0' as int == d
  {
    ('0' as int + d) as char
  }

  /** The decimal notation of `n`, as Java's string concatenation of an `int` writes it. */
  function NatToString(n: nat): (s: string)
    ensures |s| >= 1 && forall i :: 0 <= i < |s| ==> IsDigit(s[i])
  {
    if n < 10 then [DigitChar(n)] else NatToString(n / 10) + [DigitChar(n % 10)]
  }

  /** The value of a string of decimal digits. */
  function DigitsValue(s: string): nat
    requires forall i :: 0 <= i < |s| ==> IsDigit(s[i])
  {
    if s == [] then 0
    else
      assert IsDigit(s[|s| - 1]);
      DigitsValue(s[..|s| - 1]) * 10 + (s[|s| - 1] as int - '0' as int)
  }

  /** Reading the decimal notation of `n` back gives `n`. */
  lemma {:induction false} NatToStringValue(n: nat)
    ensures DigitsValue(NatToString(n)) == n
  {
    if n >= 10 {
      NatToStringValue(n / 10);
      var s := NatToString(n);
      assert s[..|s| - 1] == NatToString(n / 10);
    }
  }

  /** The number of leading digits of `s`. */
  function LeadingDigits(s: string): (k: nat)
    ensures k <= |s|
    ensures forall i :: 0 <= i < k ==> IsDigit(s[i])
    ensures k < |s| ==> !IsDigit(s[k])
  {
    if s == [] || !IsDigit(s[0]) then 0 else 1 + LeadingDigits(s[1..])
  }

  /** The index of the first `c` in `s`, or `|s|`. */
  function FirstIndexOf(s: string, c: char): (k: nat)
    ensures k <= |s|
    ensures forall i :: 0 <= i < k ==> s[i] != c
    ensures k < |s| ==> s[k] == c
  {
    if s == [] || s[0] == c then 0 else 1 + FirstIndexOf(s[1..], c)
  }

  // ---------------------------------------------------------------------------
  // Building and reading request paths
  // ---------------------------------------------------------------------------

  /** The branch field's value: the build type's branch, or the default branch when it has none. */
  function BranchSpec(branch: Option<string>): string {
    match branch
    case None => DefaultBranch
    case Some(b) => b
  }

  /** A request path for the last `count` builds of build type `id`, followed by `fields`. */
  function Path(id: string, count: nat, fields: string): string {
    Prefix + (id + (CountField + (NatToString(count) + fields)))
  }

  /** The API 8.1 request: the last `count` builds of a build type, running or not. */
  function BaseLocator(id: string, count: nat): string {
    Path(id, count, [])
  }

  /** The wall's request: the same, on the build type's branch. */
  function StatusLocator(id: string, count: nat, branch: Option<string>): string {
    Path(id, count, BranchField + BranchSpec(branch))
  }

  /** What a request path asks for; `branch` is none when the path has no branch field. */
  datatype Request = Request(buildTypeId: string, count: nat, branch: Option<string>)

  /** Reads a request path back; the build type id ends at the first comma. */
  function ParseLocator(s: string): Option<Request> {
    if !(Prefix <= s) then None
    else
      var rest := s[|Prefix|..];
      var k := FirstIndexOf(rest, ',');
      ParseFields(rest[..k], rest[k..])
  }

  /** Reads the fields that follow the build type id: the count, then an optional branch. */
  function ParseFields(id: string, tail: string): Option<Request> {
    if !(CountField <= tail) then None
    else
      var t := tail[|CountField|..];
      var d := LeadingDigits(t);
      if d == 0 then None
      else
        var after := t[d..];
        if after == [] then Some(Request(id, DigitsValue(t[..d]), None))
        else if BranchField <= after then Some(Request(id, DigitsValue(t[..d]), Some(after[|BranchField|..])))
        else None
  }

  lemma PrefixOfConcat<T>(a: seq<T>, b: seq<T>)
    ensures a <= a + b && (a + b)[|a|..] == b
  {
    assert (a + b)[..|a|] == a;
  }

  /** The first comma after an id without commas is the one that follows it. */
  lemma {:induction false} FirstCommaAfter(id: string, rest: string)
    requires ',' !in id && rest != [] && rest[0] == ','
    ensures FirstIndexOf(id + rest, ',') == |id|
  {
    if id != [] {
      assert (id + rest)[1..] == id[1..] + rest;
      FirstCommaAfter(id[1..], rest);
    }
  }

  /** The leading digits of a number followed by a non-digit are the number's. */
  lemma {:induction false} LeadingDigitsOf(digits: string, after: string)
    requires forall i :: 0 <= i < |digits| ==> IsDigit(digits[i])
    requires after == [] || !IsDigit(after[0])
    ensures LeadingDigits(digits + after) == |digits|
  {
    if digits != [] {
      assert (digits + after)[1..] == digits[1..] + after;
      LeadingDigitsOf(digits[1..], after);
    }
  }

  /** The build type id of a path runs from the prefix to the next comma. */
  lemma ParseId(id: string, more: string)
    requires ',' !in id && more != [] && more[0] == ','
    ensures ParseLocator(Prefix + (id + more)) == ParseFields(id, more)
  {
    PrefixOfConcat(Prefix, id + more);
    FirstCommaAfter(id, more);
    PrefixOfConcat(id, more);
    assert (id + more)[..|id|] == id;
  }

  /** The fields after the id: the count in decimal, then nothing or the branch field. */
  lemma ParseCount(id: string, count: nat, after: string)
    requires after == [] || BranchField <= after
    ensures ParseFields(id, CountField + (NatToString(count) + after)) ==
              Some(Request(id, count, if after == [] then None else Some(after[|BranchField|..])))
  {
    var digits := NatToString(count);
    PrefixOfConcat(CountField, digits + after);
    var t := digits + after;
    assert after != [] ==> after[0] == BranchField[0];
    LeadingDigitsOf(digits, after);
    PrefixOfConcat(digits, after);
    assert t[..|digits|] == digits;
    NatToStringValue(count);
  }

  /** A request path reads back as its build type id, its count and its optional branch field. */
  lemma ParsePath(id: string, count: nat, after: string)
    requires ',' !in id
    requires after == [] || BranchField <= after
    ensures ParseLocator(Path(id, count, after)) ==
              Some(Request(id, count, if after == [] then None else Some(after[|BranchField|..])))
  {
    var more := CountField + (NatToString(count) + after);
    ParseId(id, more);
    ParseCount(id, count, after);
  }

  /** The API 8.1 request reads back as its build type id and count, with no branch. */
  lemma ParseBaseLocator(id: string, count: nat)
    requires ',' !in id
    ensures ParseLocator(BaseLocator(id, count)) == Some(Request(id, count, None))
  {
    ParsePath(id, count, []);
  }

  /**
   * The wall's request reads back as its build type id, count and branch
   * specification; a build type without a branch asks for `default:yes`.
   */
  lemma ParseStatusLocator(id: string, count: nat, branch: Option<string>)
    requires ',' !in id
    ensures ParseLocator(StatusLocator(id, count, branch)) == Some(Request(id, count, Some(BranchSpec(branch))))
    ensures branch.None? ==> BranchSpec(branch) == DefaultBranch
  {
    PrefixOfConcat(BranchField, BranchSpec(branch));
    ParsePath(id, count, BranchField + BranchSpec(branch));
  }
}
