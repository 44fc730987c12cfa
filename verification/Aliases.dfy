/** The names a statement's tables are read through. */
module Aliases {
  import opened Options
  import opened SqlText
  import opened LikePatterns

  function Digit(n: nat): char
    requires n < 10
  {
    '0' + n as char
  }

  function Decimal(n: nat): string {
    if n < 10 then [Digit(n)] else Decimal(n / 10) + [Digit(n % 10)]
  }

  function NumberOf(s: string): int {
    if s == [] then 0 else 10 * NumberOf(s[..|s| - 1]) + (s[|s| - 1] as int - '0' as int)
  }

  lemma {:induction false} DecimalReadsBack(n: nat)
    ensures NumberOf(Decimal(n)) == n
    ensures CaseFolded(Decimal(n)) == Decimal(n)
  {
    if n < 10 {
      assert Decimal(n)[..0] == [];
    } else {
      DecimalReadsBack(n / 10);
      assert Decimal(n)[..|Decimal(n)| - 1] == Decimal(n / 10);
      assert CaseFolded(Decimal(n)) == CaseFolded(Decimal(n / 10)) + [Digit(n % 10)];
    }
  }

  /** The `k`-th name tried: `name`, `name_2`, `name_3` and on. */
  function Candidate(name: string, k: nat): string {
    if k <= 1 then name else name + "_" + Decimal(k)
  }

  lemma CandidatesDiffer(name: string, j: nat, k: nat)
    requires 1 <= j < k
    ensures CaseFolded(Candidate(name, j)) != CaseFolded(Candidate(name, k))
  {
    DecimalReadsBack(j);
    DecimalReadsBack(k);
    var a, b := CaseFolded(Candidate(name, j)), CaseFolded(Candidate(name, k));
    assert b[|name| + 1..] == CaseFolded(Decimal(k));
    if j > 1 {
      assert a[|name| + 1..] == CaseFolded(Decimal(j));
    }
  }

  /** The names tried before the `k`-th. */
  ghost function Tried(name: string, k: nat): set<string> {
    set j | 1 <= j < k :: CaseFolded(Candidate(name, j))
  }

  /** Each name already used uses up one of those an unlucky search can meet. */
  lemma TriedShrinks(name: string, bad: set<string>, k: nat)
    requires k >= 1 && CaseFolded(Candidate(name, k)) in bad
    ensures |bad - Tried(name, k + 1)| < |bad - Tried(name, k)|
  {
    var c := CaseFolded(Candidate(name, k));
    forall j | 1 <= j < k ensures CaseFolded(Candidate(name, j)) != c {
      CandidatesDiffer(name, j, k);
    }
    var before, after := bad - Tried(name, k), bad - Tried(name, k + 1);
    assert c in before;
    assert Tried(name, k + 1) == Tried(name, k) + {c};
    assert after == before - {c};
  }

  /** The number of the first name from the `k`-th on that none in `bad` is, whatever its case. */
  function FirstFree(name: string, bad: set<string>, k: nat): (n: nat)
    requires k >= 1
    ensures n >= k && CaseFolded(Candidate(name, n)) !in bad
    ensures forall j :: k <= j < n ==> CaseFolded(Candidate(name, j)) in bad
    decreases |bad - Tried(name, k)|
  {
    if CaseFolded(Candidate(name, k)) in bad then
      TriedShrinks(name, bad, k);
      FirstFree(name, bad, k + 1)
    else k
  }

  function Barred(taken: set<string>, parent: Option<string>): set<string> {
    taken + if parent.Some? then {CaseFolded(parent.value)} else {}
  }

  /**
   * The alias a table called `name` is given where `taken` are the statement's, and `parent` is one it compares
   * against.
   */
  function Claimed(name: string, parent: Option<string>, taken: set<string>): (alias: string)
    ensures CaseFolded(alias) !in taken
    ensures parent.Some? ==> CaseFolded(alias) != CaseFolded(parent.value)
  {
    Candidate(name, FirstFree(name, Barred(taken, parent), 1))
  }
}
