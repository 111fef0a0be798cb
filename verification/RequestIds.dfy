/** JSON-RPC request ids, and the ids the server substitutes for those of its clients. */
module RequestIds {

  datatype RequestId = Text(text: string) | Number(number: int)

  type ConnectionId = nat

  const INTERNAL_REQUEST_ID_PREFIX := "__code_internal_request__"

  function Digit(d: nat): char
    requires d < 10
  {
    '0' + d as char
  }

  /** A number in decimal, as `format!` writes it. */
  function Decimal(n: nat): string {
    if n < 10 then [Digit(n)] else Decimal(n / 10) + [Digit(n % 10)]
  }

  function InternalId(connection: ConnectionId, ordinal: nat): RequestId {
    Text(INTERNAL_REQUEST_ID_PREFIX + Decimal(connection) + ":" + Decimal(ordinal))
  }

  /** `is_internal_request_id` */
  predicate IsInternal(id: RequestId) {
    id.Text? && INTERNAL_REQUEST_ID_PREFIX <= id.text
  }

  // The substitution loses nothing

  function ValueOf(s: string): int {
    if s == "" then 0 else 10 * ValueOf(s[..|s| - 1]) + (s[|s| - 1] as int - '0' as int)
  }

  lemma {:induction false} DecimalHasItsValue(n: nat)
    ensures ValueOf(Decimal(n)) == n
    ensures ':' !in Decimal(n)
  {
    if n < 10 {
      assert Decimal(n)[..0] == "";
    } else {
      DecimalHasItsValue(n / 10);
      assert Decimal(n)[..|Decimal(n)| - 1] == Decimal(n / 10);
    }
  }

  lemma {:induction false} SplitAtColon(a: string, b: string, c: string, d: string)
    requires ':' !in a && ':' !in c && a + ":" + b == c + ":" + d
    ensures a == c && b == d
  {
    var s := a + ":" + b;
    assert s[|a|] == ':' && s[|c|] == ':';
    assert |a| == |c| by {
      assert forall k :: 0 <= k < |a| ==> s[k] == a[k] != ':';
      assert forall k :: 0 <= k < |c| ==> s[k] == c[k] != ':';
    }
    assert a == s[..|a|] && c == s[..|c|];
    assert b == s[|a| + 1..] && d == s[|c| + 1..];
  }

  /** Two internal ids are the same only for the same connection and the same ordinal. */
  lemma InternalIdIsInjective(c: ConnectionId, m: nat, d: ConnectionId, n: nat)
    requires InternalId(c, m) == InternalId(d, n)
    ensures c == d && m == n
  {
    var p := INTERNAL_REQUEST_ID_PREFIX;
    var s, t := Decimal(c) + ":" + Decimal(m), Decimal(d) + ":" + Decimal(n);
    assert p + s == InternalId(c, m).text && p + t == InternalId(d, n).text;
    assert s == (p + s)[|p|..] && t == (p + t)[|p|..];
    DecimalHasItsValue(c);
    DecimalHasItsValue(d);
    DecimalHasItsValue(m);
    DecimalHasItsValue(n);
    SplitAtColon(Decimal(c), Decimal(m), Decimal(d), Decimal(n));
  }

  lemma InternalIdIsInternal(c: ConnectionId, n: nat)
    ensures IsInternal(InternalId(c, n))
  {
  }
}
