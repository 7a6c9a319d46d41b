/** Decimal numbers as bytes of text. */
module Decimal {

  type byte = x: int | 0 <= x < 256
  type Text = seq<byte>

  predicate IsDigit(b: byte) {
    48 <= b <= 57
  }

  /** The first `k` bytes are digits. */
  predicate Digits(data: Text, k: nat) {
    k <= |data| && forall i :: 0 <= i < k ==> IsDigit(data[i])
  }

  /** The number the first `k` bytes spell; leading zeros are allowed. */
  function Value(data: Text, k: nat): int
    requires k <= |data|
  {
    if k == 0 then 0 else 10 * Value(data, k - 1) + data[k - 1] - 48
  }

  lemma {:induction false} ValueAgrees(data: Text, other: Text, k: nat)
    requires k <= |data| && k <= |other| && data[..k] == other[..k]
    ensures Value(data, k) == Value(other, k)
  {
    if k > 0 {
      assert data[..k - 1] == data[..k][..k - 1] == other[..k - 1];
      assert data[k - 1] == data[..k][k - 1] == other[..k][k - 1] == other[k - 1];
      ValueAgrees(data, other, k - 1);
    }
  }

  function NatToText(n: nat): (d: Text)
    ensures d != [] && Digits(d, |d|) && Value(d, |d|) == n
    ensures n > 0 ==> d[0] != 48
  {
    if n < 10 then
      var d: Text := [48 + n];
      assert Value(d, 0) == 0;
      d
    else
      var high := NatToText(n / 10);
      var d: Text := high + [48 + n % 10];
      ValueAgrees(d, high, |high|);
      d
  }

  function IntToText(n: int): Text {
    if n < 0 then [45] + NatToText(-n) else NatToText(n)
  }

  /** Length of the longest run of digits at the front, counted from `i` on. */
  function DigitRun(data: Text, i: nat := 0): (k: nat)
    requires i <= |data|
    ensures i <= k <= |data| && forall j :: i <= j < k ==> IsDigit(data[j])
    ensures k < |data| ==> !IsDigit(data[k])
    decreases |data| - i
  {
    if i == |data| || !IsDigit(data[i]) then i else DigitRun(data, i + 1)
  }
}
