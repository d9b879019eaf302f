/** Facts about sequences and their concatenation. */
module Sequences {

  lemma Assoc<T>(a: seq<T>, b: seq<T>, c: seq<T>)
    ensures a + b + c == a + (b + c)
  {
  }

  lemma NilRight<T>(s: seq<T>)
    ensures s + [] == s
  {
  }

  lemma Assoc4<T>(a: seq<T>, b: seq<T>, c: seq<T>, d: seq<T>)
    ensures a + b + c + d == a + (b + c + d)
  {
  }

  lemma Slices<T>(s: seq<T>, i: nat, j: nat, k: nat)
    requires i <= j <= k <= |s|
    ensures s[i..k] == s[i..j] + s[j..k]
  {
  }

  lemma TakeNext<T>(s: seq<T>, i: nat)
    requires i < |s|
    ensures s[..i + 1] == s[..i] + [s[i]]
  {
  }

  lemma TakeFront<T>(s: seq<T>, x: T)
    ensures (s + [x])[..|s|] == s && (s + [x])[|s|] == x
  {
  }

  lemma CutConcat<T>(a: seq<T>, b: seq<T>, k: nat)
    requires k <= |a| + |b|
    ensures (a + b)[..k] == if k < |a| then a[..k] else a + b[..k - |a|]
  {
  }

  lemma ConsSlice<T>(s: seq<T>, n: nat)
    requires s != [] && n <= |s[1..]|
    ensures [s[0]] + s[1..][..n] == s[..n + 1]
  {
  }

  lemma TakeAll<T>(s: seq<T>)
    ensures s[..|s|] == s
  {
  }

  function Join<T>(rows: seq<seq<T>>): seq<T> {
    if rows == [] then [] else rows[0] + Join(rows[1..])
  }

  lemma {:induction false} JoinAppend<T>(rows: seq<seq<T>>, row: seq<T>)
    ensures Join(rows + [row]) == Join(rows) + row
  {
    if rows == [] {
      assert rows + [row] == [row] && [row][1..] == [];
      assert Join([row]) == row + Join([row][1..]);
    } else {
      assert (rows + [row])[1..] == rows[1..] + [row];
      JoinAppend(rows[1..], row);
      Assoc(rows[0], Join(rows[1..]), row);
    }
  }

  lemma JoinOne<T>(row: seq<T>)
    ensures Join([row]) == row
  {
    assert [row][1..] == [];
    assert Join([row]) == row + Join([row][1..]);
  }

  lemma {:induction false} JoinConcat<T>(a: seq<seq<T>>, b: seq<seq<T>>)
    ensures Join(a + b) == Join(a) + Join(b)
    decreases |a|
  {
    if a == [] {
      assert a + b == b;
    } else {
      assert (a + b)[0] == a[0] && (a + b)[1..] == a[1..] + b;
      JoinConcat(a[1..], b);
      Assoc(a[0], Join(a[1..]), Join(b));
    }
  }

  /** The row in which an element stands. */
  lemma {:induction false} MemberOfJoin<T>(rows: seq<seq<T>>, x: T) returns (i: nat)
    requires x in Join(rows)
    ensures i < |rows| && x in rows[i]
  {
    if x in rows[0] {
      i := 0;
    } else {
      i := MemberOfJoin(rows[1..], x);
      i := i + 1;
    }
  }

  lemma {:induction false} JoinMember<T>(rows: seq<seq<T>>, i: nat, x: T)
    requires i < |rows| && x in rows[i]
    ensures x in Join(rows)
    decreases i
  {
    if i > 0 {
      JoinMember(rows[1..], i - 1, x);
    }
  }
}
