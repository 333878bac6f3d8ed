/** Finding `@username` mentions in a note. */
module Mentions {

  /** `[a-zA-Z0-9._-]` */
  predicate UsernameChar(c: char) {
    'a' <= c <= 'z' || 'A' <= c <= 'Z' || '0' <= c <= '9' || c in "._-"
  }

  const SMALL := "abcdefghijklmnopqrstuvwxyz"
  const CAPITAL := "ABCDEFGHIJKLMNOPQRSTUVWXYZ"
  const DIGITS := "0123456789"

  /** Username characters are letters, digits, dot, underscore and hyphen. */
  lemma UsernameCharMeaning(c: char)
    ensures UsernameChar(c) <==> c in SMALL || c in CAPITAL || c in DIGITS || c in {'.', '_', '-'}
  {
    SmallMeaning(c);
    CapitalMeaning(c);
    DigitMeaning(c);
  }

  lemma SmallMeaning(c: char)
    ensures 'a' <= c <= 'z' <==> c in SMALL
  {
    if 'a' <= c <= 'z' {
      assert SMALL[(c - 'a') as int] == c;
    }
  }

  lemma CapitalMeaning(c: char)
    ensures 'A' <= c <= 'Z' <==> c in CAPITAL
  {
    if 'A' <= c <= 'Z' {
      assert CAPITAL[(c - 'A') as int] == c;
    }
  }

  lemma DigitMeaning(c: char)
    ensures '0' <= c <= '9' <==> c in DIGITS
  {
    if '0' <= c <= '9' {
      assert DIGITS[(c - '0') as int] == c;
    }
  }

  /** `USERNAME_REGEX` */
  predicate Username(s: string) {
    |s| > 0 && forall i :: 0 <= i < |s| ==> UsernameChar(s[i])
  }

  /** A maximal run of username characters, `content[i + 1..j]`, directly after an `@` at `i`. */
  predicate MentionAt(content: string, i: int, j: int) {
    && 0 <= i && i + 1 < j <= |content| && content[i] == '@'
    && (forall k :: i < k < j ==> UsernameChar(content[k]))
    && (j < |content| ==> !UsernameChar(content[j]))
  }

  ghost function Mentions(content: string): set<string> {
    set i, j | 0 <= i < |content| && 0 <= j <= |content| && MentionAt(content, i, j) :: content[i + 1..j]
  }

  /** The mentions that end at or before a position. */
  ghost function MentionsUpTo(content: string, end: int): set<string> {
    set i, j | 0 <= i < |content| && 0 <= j <= |content| && MentionAt(content, i, j) && j <= end :: content[i + 1..j]
  }

  /** Every mention lies on one side of a position. */
  ghost predicate Splits(content: string, at: int) {
    forall i, j :: MentionAt(content, i, j) ==> j <= at || at <= i
  }

  lemma SameStartSameEnd(content: string, i: int, j: int, k: int)
    requires MentionAt(content, i, j) && MentionAt(content, i, k)
    ensures j == k
  {
  }

  /** No mention starts inside another, because `@` is not a username character. */
  lemma MentionSplits(content: string, i: int, j: int)
    requires MentionAt(content, i, j) && Splits(content, i)
    ensures Splits(content, j)
  {
    forall p, q | MentionAt(content, p, q) ensures q <= j || j <= p {
      if p == i {
        SameStartSameEnd(content, i, j, q);
      }
    }
  }

  /** `matchAll` from left to right, each match as long as it can be and the next one after its end. */
  method ParseMentions(content: string) returns (mentions: set<string>)
    ensures mentions == Mentions(content)
  {
    mentions := {};
    var i := 0;
    while i < |content|
      invariant 0 <= i <= |content|
      invariant Splits(content, i)
      invariant mentions == MentionsUpTo(content, i)
    {
      var j := i + 1;
      if content[i] == '@' {
        while j < |content| && UsernameChar(content[j])
          invariant i + 1 <= j <= |content|
          invariant forall k :: i + 1 <= k < j ==> UsernameChar(content[k])
        {
          j := j + 1;
        }
      }
      if content[i] == '@' && i + 1 < j {
        assert MentionAt(content, i, j);
        MentionSplits(content, i, j);
        OneMoreMention(content, i, j);
        mentions := mentions + {content[i + 1..j]};
        i := j;
      } else {
        NoMentionHere(content, i);
        i := i + 1;
      }
    }
    assert MentionsUpTo(content, |content|) == Mentions(content);
  }

  lemma OneMoreMention(content: string, i: int, j: int)
    requires MentionAt(content, i, j) && Splits(content, i)
    ensures MentionsUpTo(content, j) == MentionsUpTo(content, i) + {content[i + 1..j]}
  {
    forall p, q | MentionAt(content, p, q) && q <= j ensures q <= i || (p == i && q == j) {
      if p == i {
        SameStartSameEnd(content, i, j, q);
      }
    }
  }

  lemma NoMentionHere(content: string, i: int)
    requires 0 <= i < |content| && Splits(content, i)
    requires content[i] != '@' || i + 1 == |content| || !UsernameChar(content[i + 1])
    ensures Splits(content, i + 1) && MentionsUpTo(content, i + 1) == MentionsUpTo(content, i)
  {
    forall p, q | MentionAt(content, p, q) ensures p != i {
      assert UsernameChar(content[p + 1]);
    }
  }

  /** How many username characters a text starts with. */
  function Run(s: string): (n: nat)
    ensures n <= |s| && forall i :: 0 <= i < n ==> UsernameChar(s[i])
    ensures n < |s| ==> !UsernameChar(s[n])
  {
    if |s| == 0 || !UsernameChar(s[0]) then 0 else 1 + Run(s[1..])
  }

  /** Whatever surrounds it, `@name` yields the name together with the username characters that follow it: so the
      name itself exactly when it is followed by the end or by another character. */
  lemma MentionIsFound(before: string, name: string, after: string)
    requires Username(name)
    ensures name + after[..Run(after)] in Mentions(before + "@" + name + after)
    ensures forall j :: MentionAt(before + "@" + name + after, |before|, j) <==> j == |before| + 1 + |name| + Run(after)
  {
    var content, i, n := before + "@" + name + after, |before|, Run(after);
    var j := i + 1 + |name| + n;
    var m := name + after[..n];
    assert content[i + 1..j] == m;
    assert forall k :: 0 <= k < |m| ==> UsernameChar(m[k]);
    forall k | i < k < j ensures UsernameChar(content[k]) {
      assert content[k] == m[k - (i + 1)];
    }
    assert j < |content| ==> content[j] == after[n];
    assert MentionAt(content, i, j);
    forall q | MentionAt(content, i, q) ensures q == j {
      SameStartSameEnd(content, i, j, q);
    }
  }

  /** Only valid usernames are ever looked up. */
  lemma MentionsAreUsernames(content: string, m: string)
    requires m in Mentions(content)
    ensures Username(m) && exists i :: 0 <= i < |content| && content[i] == '@' && m <= content[i + 1..]
  {
    var i, j :| 0 <= i < |content| && 0 <= j <= |content| && MentionAt(content, i, j) && m == content[i + 1..j];
    assert m == content[i + 1..][..j - (i + 1)];
  }
}
