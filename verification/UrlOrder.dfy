/** The order in which the collection sorts urls. */
module UrlOrder {

  /** The order of urls in the collection: character by character. */
  predicate UrlLe(a: string, b: string) {
    a == "" || (b != "" && (a[0] < b[0] || (a[0] == b[0] && UrlLe(a[1..], b[1..]))))
  }

  lemma {:induction false} UrlLeTotal(a: string, b: string)
    ensures UrlLe(a, b) || UrlLe(b, a)
  {
    if a != "" && b != "" && a[0] == b[0] {
      UrlLeTotal(a[1..], b[1..]);
    }
  }

  lemma {:induction false} UrlLeTransitive(a: string, b: string, c: string)
    requires UrlLe(a, b) && UrlLe(b, c)
    ensures UrlLe(a, c)
  {
    if a != "" && a[0] == b[0] && b[0] == c[0] {
      UrlLeTransitive(a[1..], b[1..], c[1..]);
    }
  }

  /** The strings agree up to a position, where the second goes on with a greater character or the first ends. */
  predicate ComesFirst(a: string, b: string, i: nat) {
    i <= |a| && i <= |b| && a[..i] == b[..i] && (i == |a| || (i < |b| && a[i] < b[i]))
  }

  lemma SameHead(a: string, b: string, i: nat)
    requires 0 < i <= |a| && i <= |b|
    ensures a[..i] == b[..i] ==> a[0] == b[0]
  {
    assert a[..i][0] == a[0] && b[..i][0] == b[0];
  }

  /** So the order is that of the characters, position by position. */
  lemma {:induction false} UrlLeIff(a: string, b: string)
    ensures UrlLe(a, b) <==> exists i: nat :: ComesFirst(a, b, i)
  {
    if a == "" {
      assert ComesFirst(a, b, 0);
    } else if b != "" && a[0] == b[0] {
      UrlLeIff(a[1..], b[1..]);
      if i: nat :| ComesFirst(a[1..], b[1..], i) {
        assert a[..i + 1] == [a[0]] + a[1..][..i] && b[..i + 1] == [b[0]] + b[1..][..i];
        assert ComesFirst(a, b, i + 1);
      }
      if i: nat :| ComesFirst(a, b, i) {
        assert i > 0;
        assert a[1..][..i - 1] == a[..i][1..] && b[1..][..i - 1] == b[..i][1..];
        assert ComesFirst(a[1..], b[1..], i - 1);
      }
    } else if b != "" && a[0] < b[0] {
      assert ComesFirst(a, b, 0);
    } else {
      forall i: nat | 0 < i <= |a| && i <= |b| {
        SameHead(a, b, i);
      }
    }
  }
}
