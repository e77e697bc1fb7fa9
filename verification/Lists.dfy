/**
  Lists of identifiers, as the kernel's linked lists are seen from outside.
 */
module Lists {
  ghost predicate Distinct(s: seq<nat>) {
    forall i, j :: 0 <= i < j < |s| ==> s[i] != s[j]
  }

  // list_del
  function Del(s: seq<nat>, x: nat): seq<nat> {
    if s == [] then [] else if s[0] == x then s[1..] else [s[0]] + Del(s[1..], x)
  }

  lemma {:induction false} DelFacts(s: seq<nat>, x: nat)
    requires Distinct(s)
    ensures Distinct(Del(s, x))
    ensures forall y :: y in Del(s, x) <==> y in s && y != x
    ensures |Del(s, x)| == |s| - if x in s then 1 else 0
  {
    if s != [] {
      assert s == [s[0]] + s[1..];
      DelFacts(s[1..], x);
      if s[0] != x {
        var t := Del(s[1..], x);
        forall j | 0 <= j < |t| ensures t[j] != s[0] {
          assert t[j] in s[1..];
        }
      }
    }
  }

  lemma DistinctJoin(s: seq<nat>, t: seq<nat>)
    requires Distinct(s) && Distinct(t) && forall x :: x in s ==> x !in t
    ensures Distinct(s + t)
  {
    forall i, j | 0 <= i < j < |s + t| ensures (s + t)[i] != (s + t)[j] {
      if i < |s| <= j {
        assert s[i] in s && t[j - |s|] in t;
      }
    }
  }

  lemma {:induction false} DelJoin(s: seq<nat>, t: seq<nat>, x: nat)
    requires x !in t
    ensures Del(s + t, x) == Del(s, x) + t
  {
    if s == [] {
      assert s + t == t;
      DelAbsent(t, x);
    } else {
      assert (s + t)[1..] == s[1..] + t;
      if s[0] != x {
        DelJoin(s[1..], t, x);
      }
    }
  }

  lemma {:induction false} DelAbsent(t: seq<nat>, x: nat)
    requires x !in t
    ensures Del(t, x) == t
  {
    if t != [] {
      DelAbsent(t[1..], x);
    }
  }

  function IndexOf(s: seq<nat>, x: nat): (i: nat)
    requires x in s
    ensures i < |s| && s[i] == x
  {
    if s[0] == x then 0 else 1 + IndexOf(s[1..], x)
  }
}
