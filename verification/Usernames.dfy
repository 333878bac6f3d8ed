/** Allocating a username for a new OAuth user: the wanted name, else a thematic suffix, else a number. */
module Usernames {

  /** A number as JavaScript prints it. */
  function Decimal(n: nat): (s: string)
    ensures |s| > 0 && forall c :: c in s ==> '0' <= c <= '9'
    ensures |s| == 1 <==> n < 10
  {
    if n < 10 then [Digit(n)] else Decimal(n / 10) + [Digit(n % 10)]
  }

  function Digit(n: nat): (c: char)
    requires n < 10
    ensures '0' <= c <= '9' && (c - '0') as nat == n
  {
    '0' + n as char
  }

  /** Distinct numbers print distinctly. */
  lemma {:induction false} DecimalIsInjective(a: nat, b: nat)
    requires Decimal(a) == Decimal(b)
    ensures a == b
  {
    assert Decimal(a)[|Decimal(a)| - 1] == Digit(a % 10) && Decimal(b)[|Decimal(b)| - 1] == Digit(b % 10);
    if a >= 10 {
      var s := Decimal(a);
      assert s[..|s| - 1] == Decimal(a / 10) && s[..|s| - 1] == Decimal(b / 10);
      DecimalIsInjective(a / 10, b / 10);
    }
  }

  /** The number a text of digits stands for, the last digit counting once. */
  function ReadDecimal(s: string): int {
    if |s| == 0 then 0 else 10 * ReadDecimal(s[..|s| - 1]) + (s[|s| - 1] as int - '0' as int)
  }

  /** A printed number reads back, and has no leading zero. */
  lemma {:induction false} DecimalReadsBack(n: nat)
    ensures ReadDecimal(Decimal(n)) == n && (n > 0 ==> Decimal(n)[0] != '0')
  {
    var s := Decimal(n);
    if n >= 10 {
      DecimalReadsBack(n / 10);
      assert s[..|s| - 1] == Decimal(n / 10);
    } else {
      assert s[..|s| - 1] == "";
    }
  }

  function Numbered(base: string, n: nat): string {
    base + Decimal(n)
  }

  lemma NumberedIsInjective(base: string, a: nat, b: nat)
    requires Numbered(base, a) == Numbered(base, b)
    ensures a == b
  {
    assert Decimal(a) == Numbered(base, a)[|base|..] && Decimal(b) == Numbered(base, b)[|base|..];
    DecimalIsInjective(a, b);
  }

  /** The numeric names probed before `n`. */
  function Probed(base: string, n: nat): set<string> {
    set i | 1 <= i < n :: Numbered(base, i)
  }

  lemma {:induction false} ProbesAreDistinct(base: string, n: nat)
    requires n >= 1
    ensures |Probed(base, n)| == n - 1
  {
    hide Numbered, Decimal;
    if n == 1 {
      assert Probed(base, n) == {};
    } else {
      ProbesAreDistinct(base, n - 1);
      assert Probed(base, n) == Probed(base, n - 1) + {Numbered(base, n - 1)};
      if Numbered(base, n - 1) in Probed(base, n - 1) {
        var i :| 1 <= i < n - 1 && Numbered(base, i) == Numbered(base, n - 1);
        NumberedIsInjective(base, i, n - 1);
        assert false;
      }
    }
  }

  lemma SubsetSize(a: set<string>, b: set<string>)
    requires a <= b
    ensures |a| <= |b|
  {
    assert b == a + (b - a);
  }

  /** Pigeonhole: with the base name and the first n - 1 numbers all taken, n names are taken. */
  lemma ProbesAreBounded(base: string, n: nat, taken: set<string>)
    requires n >= 1 && base in taken && Probed(base, n) <= taken
    ensures n <= |taken|
  {
    ProbesAreDistinct(base, n);
    forall s | s in Probed(base, n) ensures s != base {
      var i :| 1 <= i < n && s == Numbered(base, i);
      assert |s| == |base| + |Decimal(i)|;
    }
    assert |Probed(base, n) + {base}| == n;
    SubsetSize(Probed(base, n) + {base}, taken);
  }

  /** The name tried at step `i` of the suffix loop. */
  function Suffixed(base: string, suffixes: seq<string>, start: nat, i: nat): string
    requires |suffixes| > 0
  {
    base + suffixes[(start + i) % |suffixes|]
  }

  /** The loop goes through the suffixes in their order, from the random start to the end and on from the beginning. */
  lemma SuffixOrder(base: string, suffixes: seq<string>, start: nat, i: nat)
    requires start < |suffixes| && i < |suffixes|
    ensures Suffixed(base, suffixes, start, i) ==
            base + (suffixes[start..] + suffixes[..start])[i]
  {
    if start + i >= |suffixes| {
      ModOfMultiple(|suffixes|, 1, start + i - |suffixes|);
    }
  }

  /** `findAvailableUsername`. Asking the database for a user by name is asking whether the name is taken; the
      random start is a parameter. */
  method FindAvailableUsername(base: string, suffixes: seq<string>, start: nat, taken: set<string>)
    returns (username: string, ghost counter: nat)
    ensures username !in taken
    ensures base !in taken ==> username == base
    ensures counter == 0 && base in taken ==>
              |suffixes| > 0 && (exists i :: 0 <= i < |suffixes| && username == Suffixed(base, suffixes, start, i)
                                   && forall j :: 0 <= j < i ==> Suffixed(base, suffixes, start, j) in taken)
    ensures counter > 0 ==>
              && base in taken
              && (forall s :: s in suffixes ==> base + s in taken)
              && username == base + Decimal(counter)
              && (forall n :: 1 <= n < counter ==> base + Decimal(n) in taken)
              && counter <= |taken|
  {
    counter := 0;
    if base !in taken {
      return base, 0;
    }
    var suffixCount := |suffixes|;
    for i := 0 to suffixCount
      invariant forall j :: 0 <= j < i ==> Suffixed(base, suffixes, start, j) in taken
    {
      var newUsername := base + suffixes[(start + i) % suffixCount];
      assert newUsername == Suffixed(base, suffixes, start, i);
      if newUsername !in taken {
        return newUsername, 0;
      }
    }
    RotationCoversAll(base, suffixes, start, taken);
    var n := 1;
    ProbesAreBounded(base, n, taken) by { assert Probed(base, 1) == {}; }
    while true
      invariant 1 <= n <= |taken| && Probed(base, n) <= taken
      decreases |taken| - n
    {
      username := Numbered(base, n);
      if username !in taken {
        counter := n;
        forall m | 1 <= m < n ensures base + Decimal(m) in taken {
          assert Numbered(base, m) in Probed(base, n);
        }
        return;
      }
      assert Probed(base, n + 1) == Probed(base, n) + {username};
      ProbesAreBounded(base, n + 1, taken);
      n := n + 1;
    }
  }

  /** Starting anywhere, the suffix loop tries every suffix. */
  lemma RotationCoversAll(base: string, suffixes: seq<string>, start: nat, taken: set<string>)
    requires |suffixes| > 0 ==> forall i :: 0 <= i < |suffixes| ==> Suffixed(base, suffixes, start, i) in taken
    ensures forall s :: s in suffixes ==> base + s in taken
  {
    forall s | s in suffixes ensures base + s in taken {
      var n := |suffixes|;
      var k :| 0 <= k < n && suffixes[k] == s;
      var i := RotationIndex(n, start, k);
      assert Suffixed(base, suffixes, start, i) == base + s;
    }
  }

  lemma RotationIndex(n: nat, start: nat, k: nat) returns (i: nat)
    requires k < n
    ensures i < n && (start + i) % n == k
  {
    var q, r := start / n, start % n;
    i := if r <= k then k - r else k + n - r;
    QuotientAndRest(start, n);
    ModOfMultiple(n, q, k);
    ModOfMultiple(n, q + 1, k);
    assert start + i == if r <= k then q * n + k else (q + 1) * n + k;
  }

  lemma QuotientAndRest(x: nat, n: nat)
    requires n > 0
    ensures x == x / n * n + x % n && x % n < n
  {
  }

  lemma Distribute(a: int, b: int, n: int)
    ensures (a - b) * n == a * n - b * n && (a + 1) * n == a * n + n
  {
  }

  lemma AtLeastOnce(a: int, n: nat)
    requires a >= 1
    ensures a * n >= n
  {
    Distribute(a, 1, n);
    assert (a - 1) * n >= 0;
  }

  lemma ModOfMultiple(n: nat, q: nat, r: nat)
    requires r < n
    ensures (q * n + r) % n == r && (q + 1) * n == q * n + n
  {
    var x := q * n + r;
    var q', r' := x / n, x % n;
    assert x == q' * n + r';
    Distribute(q, q', n);
    Distribute(q', q, n);
    if q' > q {
      AtLeastOnce(q' - q, n);
      assert false;
    }
    if q' < q {
      AtLeastOnce(q - q', n);
      assert false;
    }
  }

  /** The names the suffix loop tries. */
  function SuffixedNames(base: string, suffixes: seq<string>): set<string> {
    set s | s in suffixes :: base + s
  }

  /** No suffix starts with a digit or is empty. */
  predicate Thematic(suffixes: seq<string>) {
    forall s :: s in suffixes ==> |s| > 0 && !('0' <= s[0] <= '9')
  }

  /** With suffixes that start with a non-digit, the numeric phase is shorter still: the taken names include the
      base and every suffixed name besides the numbers already probed. */
  lemma NumericPhaseIsShort(base: string, suffixes: seq<string>, counter: nat, taken: set<string>)
    requires Thematic(suffixes) && counter >= 1
    requires base in taken && SuffixedNames(base, suffixes) <= taken && Probed(base, counter) <= taken
    ensures counter + |SuffixedNames(base, suffixes)| <= |taken|
  {
    var numbers, names := Probed(base, counter), SuffixedNames(base, suffixes);
    ProbesAreDistinct(base, counter);
    forall x | x in numbers ensures x != base && x !in names {
      var i :| 1 <= i < counter && x == Numbered(base, i);
      assert Decimal(i)[0] in Decimal(i) && x[|base|] == Decimal(i)[0];
    }
    forall x | x in names ensures x != base {
      var s :| s in suffixes && x == base + s;
      assert |x| == |base| + |s|;
    }
    assert numbers !! names;
    assert |numbers + names| == |numbers| + |names|;
    assert |numbers + names + {base}| == |numbers + names| + 1;
    SubsetSize(numbers + names + {base}, taken);
  }
}
