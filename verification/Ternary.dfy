/** Three-valued logic, as section 8.12 of SQL-92 tabulates it. */
module Ternary {
  datatype Tri = False | Unknown | True

  function Of(b: bool): Tri {
    if b then True else False
  }

  function And(a: Tri, b: Tri): Tri {
    if a.False? || b.False? then False else if a.Unknown? || b.Unknown? then Unknown else True
  }

  function Or(a: Tri, b: Tri): Tri {
    if a.True? || b.True? then True else if a.Unknown? || b.Unknown? then Unknown else False
  }

  function Not(a: Tri): Tri {
    match a
    case False => True
    case Unknown => Unknown
    case True => False
  }

  /** The conjunction of a list, true of none. */
  function AllOf(ts: seq<Tri>): Tri {
    if ts == [] then True else And(ts[0], AllOf(ts[1..]))
  }

  /** The disjunction of a list, false of none. */
  function AnyOf(ts: seq<Tri>): Tri {
    if ts == [] then False else Or(ts[0], AnyOf(ts[1..]))
  }

  lemma {:induction false} AllOfConcat(a: seq<Tri>, b: seq<Tri>)
    ensures AllOf(a + b) == And(AllOf(a), AllOf(b))
  {
    if a == [] {
      assert a + b == b;
    } else {
      AllOfConcat(a[1..], b);
      assert (a + b)[1..] == a[1..] + b;
    }
  }

  lemma {:induction false} AnyOfConcat(a: seq<Tri>, b: seq<Tri>)
    ensures AnyOf(a + b) == Or(AnyOf(a), AnyOf(b))
  {
    if a == [] {
      assert a + b == b;
    } else {
      AnyOfConcat(a[1..], b);
      assert (a + b)[1..] == a[1..] + b;
    }
  }

  /** A conjunction is true of exactly the lists all of whose members are. */
  lemma {:induction false} AllOfTrue(ts: seq<Tri>)
    ensures AllOf(ts) == True <==> forall i :: 0 <= i < |ts| ==> ts[i] == True
  {
    if ts != [] {
      AllOfTrue(ts[1..]);
      assert forall i :: 0 < i < |ts| ==> ts[i] == ts[1..][i - 1];
      assert forall i :: 0 <= i < |ts[1..]| ==> ts[1..][i] == ts[i + 1];
    }
  }
}
