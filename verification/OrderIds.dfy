/** The ids the simulator gives its orders, and why the idempotency keys built from them are unique. */
module OrderIds {
  import opened Domain

  function Digit(d: nat): char
    requires d < 10
  {
    '0' + d as char
  }

  /** The decimal digits of n, without leading zeros. */
  function Digits(n: nat): (s: string)
    ensures |s| > 0
  {
    if n < 10 then [Digit(n)] else Digits(n / 10) + [Digit(n % 10)]
  }

  function Zeros(k: nat): string {
    if k == 0 then [] else ['0'] + Zeros(k - 1)
  }

  lemma {:induction false} ZerosLength(k: nat)
    ensures |Zeros(k)| == k
  {
    if k == 0 {
    } else {
      ZerosLength(k - 1);
    }
  }

  lemma {:induction false} ZerosEnd(k: nat)
    requires k > 0
    ensures Zeros(k) == Zeros(k - 1) + ['0']
  {
    if k == 1 {
    } else {
      ZerosEnd(k - 1);
    }
  }

  /** Padded on the left with zeros to the width, longer when needed. */
  function PadTo(s: string, width: nat): string {
    if |s| < width then Zeros(width - |s|) + s else s
  }

  /** Python's format spec 0wd. */
  function Padded(n: nat, width: nat): string {
    PadTo(Digits(n), width)
  }

  /** Nothing but decimal digits. */
  predicate IsNumeral(s: string) {
    forall k :: 0 <= k < |s| ==> '0' <= s[k] <= '9'
  }

  /** The number that a numeral writes. */
  function DecimalValue(s: string): nat
    requires IsNumeral(s)
  {
    if s == [] then 0 else 10 * DecimalValue(s[..|s| - 1]) + (s[|s| - 1] as int - '0' as int)
  }

  /** The part after the last dash. */
  function LastField(s: string): string {
    if s == [] || s[|s| - 1] == '-' then [] else LastField(s[..|s| - 1]) + [s[|s| - 1]]
  }

  lemma {:induction false} DigitsRoundTrip(n: nat)
    ensures IsNumeral(Digits(n)) && DecimalValue(Digits(n)) == n
    ensures |Digits(n)| > 1 ==> Digits(n)[0] != '0'
  {
    if n < 10 {
      assert Digits(n)[..0] == [];
    } else {
      DigitsRoundTrip(n / 10);
      var s := Digits(n);
      assert s[..|s| - 1] == Digits(n / 10);
      assert n / 10 < 10 ==> Digits(n / 10) == [Digit(n / 10)];
    }
  }

  lemma {:induction false} LeadingZeros(k: nat, s: string)
    requires IsNumeral(s)
    ensures IsNumeral(Zeros(k) + s) && DecimalValue(Zeros(k) + s) == DecimalValue(s)
    decreases k, |s|
  {
    if s != [] {
      LeadingZeros(k, s[..|s| - 1]);
      assert Zeros(k) + s == Zeros(k) + s[..|s| - 1] + [s[|s| - 1]];
      assert (Zeros(k) + s)[..|Zeros(k) + s| - 1] == Zeros(k) + s[..|s| - 1];
    } else if k > 0 {
      LeadingZeros(k - 1, ['0']);
      ZerosEnd(k);
      assert Zeros(k) + s == Zeros(k - 1) + ['0'];
      assert ['0'][..0] == [];
    } else {
      assert Zeros(0) + s == s;
    }
  }

  lemma PadToKeepsValue(s: string, width: nat)
    requires IsNumeral(s)
    ensures IsNumeral(PadTo(s, width)) && DecimalValue(PadTo(s, width)) == DecimalValue(s)
  {
    if |s| < width {
      LeadingZeros(width - |s|, s);
    }
  }

  lemma PadToLength(s: string, width: nat)
    ensures |PadTo(s, width)| >= width && |PadTo(s, width)| >= |s|
    ensures |PadTo(s, width)| > width ==> PadTo(s, width) == s
  {
    if |s| < width {
      ZerosLength(width - |s|);
    }
  }

  /** The padded number is a numeral that reads back as the number, so it holds no dash. */
  lemma PaddedRoundTrip(n: nat, width: nat)
    ensures IsNumeral(Padded(n, width)) && DecimalValue(Padded(n, width)) == n
  {
    DigitsRoundTrip(n);
    PadToKeepsValue(Digits(n), width);
  }

  /** It reaches the width, and beyond the width it has no leading zero. */
  lemma PaddedLength(n: nat, width: nat)
    ensures |Padded(n, width)| > 0 && |Padded(n, width)| >= width
    ensures |Padded(n, width)| > width && |Padded(n, width)| > 1 ==> Padded(n, width)[0] != '0'
  {
    DigitsRoundTrip(n);
    PadToLength(Digits(n), width);
  }

  lemma {:induction false} LastFieldAfterDash(s: string, field: string)
    requires '-' !in field
    ensures LastField(s + "-" + field) == field
  {
    var t := s + "-" + field;
    if field == [] {
      assert t[|t| - 1] == '-';
    } else {
      var init := field[..|field| - 1];
      LastFieldAfterDash(s, init);
      assert t[..|t| - 1] == s + "-" + init;
      assert field == init + [field[|field| - 1]];
    }
  }

  /** The id of the order with the given index, for any prefix and any (normalized) scenario name. */
  function OrderId(prefix: string, scenarioName: string, index: nat): string {
    prefix + "-" + scenarioName + "-" + Padded(index, 4)
  }

  lemma PartsOfId(prefix: string, scenarioName: string, field: string)
    ensures
      var id := prefix + "-" + scenarioName + "-" + field;
      && |id| == |prefix| + |scenarioName| + |field| + 2 && prefix + "-" <= id
      && id[|prefix| + 1..|prefix| + 1 + |scenarioName|] == scenarioName
  {
  }

  /** Prefix, scenario name and index can all be read off the id, whatever dashes the first two contain
      and however long the index is: what follows the last dash is the index, in at least four digits. */
  lemma IndexRoundTrip(prefix: string, scenarioName: string, index: nat)
    ensures
      var id, field := OrderId(prefix, scenarioName, index), LastField(OrderId(prefix, scenarioName, index));
      && IsNumeral(field) && DecimalValue(field) == index
      && |field| >= 4 && (|field| > 4 ==> field[0] != '0')
      && |id| == |prefix| + |scenarioName| + |field| + 2 && prefix + "-" <= id
      && id[|prefix| + 1..|prefix| + 1 + |scenarioName|] == scenarioName
  {
    PaddedRoundTrip(index, 4);
    PaddedLength(index, 4);
    PartsOfId(prefix, scenarioName, Padded(index, 4));
    LastFieldAfterDash(prefix + "-" + scenarioName, Padded(index, 4));
  }

  /** The ids of a run: order i + 1 runs the i-th scenario name. A single-scenario run repeats one name. */
  function RunIds(prefix: string, scenarioNames: seq<string>): (ids: seq<string>)
    ensures |ids| == |scenarioNames|
    ensures forall i :: 0 <= i < |ids| ==> ids[i] == OrderId(prefix, scenarioNames[i], i + 1)
  {
    seq(|scenarioNames|, i requires 0 <= i < |scenarioNames| => OrderId(prefix, scenarioNames[i], i + 1))
  }

  /** The orders of a run are numbered from 1, in the order of their scenario names. */
  lemma OrdersAreNumbered(prefix: string, scenarioNames: seq<string>, i: nat)
    requires i < |scenarioNames|
    ensures
      var id := RunIds(prefix, scenarioNames)[i];
      && IsNumeral(LastField(id)) && DecimalValue(LastField(id)) == i + 1
      && prefix + "-" + scenarioNames[i] + "-" <= id
  {
    IndexRoundTrip(prefix, scenarioNames[i], i + 1);
  }

  /** In a single or a mixed run no two orders share an id, hence no two orders share a commandId. */
  lemma RunIdsDistinct(prefix: string, scenarioNames: seq<string>, i: nat, j: nat)
    requires i < j < |scenarioNames|
    ensures RunIds(prefix, scenarioNames)[i] != RunIds(prefix, scenarioNames)[j]
    ensures CommandId(RunIds(prefix, scenarioNames)[i]) != CommandId(RunIds(prefix, scenarioNames)[j])
  {
    IndexRoundTrip(prefix, scenarioNames[i], i + 1);
    IndexRoundTrip(prefix, scenarioNames[j], j + 1);
    CommandIdInjective(RunIds(prefix, scenarioNames)[i], RunIds(prefix, scenarioNames)[j]);
  }
}
