/** Account tables: maps from addresses to integers in which a missing address
    reads as 0, as Go's map indexing does, together with their grand total. */
module Accounts {

  /** An account address: the text it is written as. */
  datatype Address = Address(text: string)

  type Table = map<Address, int>

  function At(m: Table, a: Address): int {
    if a in m then m[a] else 0
  }

  /** `m[a] += n` */
  function Credit(m: Table, a: Address, n: int): Table {
    m[a := At(m, a) + n]
  }

  ghost function AnyKey(m: Table): Address
    requires m.Keys != {}
    ensures AnyKey(m) in m
  {
    var k :| k in m; k
  }

  /** The sum of all entries, taken in an arbitrary order. */
  ghost function Total(m: Table): int
    decreases |m|
  {
    if m.Keys == {} then 0
    else
      var k := AnyKey(m);
      m[k] + Total(m - {k})
  }

  /** The total does not depend on the order: any entry can be taken out first. */
  lemma {:induction false} TotalWithout(m: Table, k: Address)
    requires k in m
    ensures Total(m) == m[k] + Total(m - {k})
    decreases |m|
  {
    var j := AnyKey(m);
    if j != k {
      var withoutJ, withoutK := m - {j}, m - {k};
      assert withoutJ - {k} == withoutK - {j};
      TotalWithout(withoutJ, k);
      TotalWithout(withoutK, j);
    }
  }

  lemma TotalCredit(m: Table, a: Address, n: int)
    ensures Total(Credit(m, a, n)) == Total(m) + n
  {
    var c := Credit(m, a, n);
    TotalWithout(c, a);
    if a in m {
      TotalWithout(m, a);
      assert c - {a} == m - {a};
    } else {
      assert c - {a} == m;
    }
  }
}
