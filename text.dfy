/** String facts the renderer's output is judged by: joining with a
    separator, counting a character, one string occurring inside another,
    and balanced parentheses. */
module Text {

  /** The pieces with `sep` between neighbours: Rust's `intersperse(sep)`
      followed by `collect::<String>()`.  No pieces give the empty string. */
  function Join(parts: seq<string>, sep: string): (r: string)
    ensures |parts| >= 1 ==> |r| == TotalLength(parts) + (|parts| - 1) * |sep|
    ensures parts == [] ==> r == ""
  {
    if |parts| == 0 then ""
    else if |parts| == 1 then parts[0]
    else parts[0] + sep + Join(parts[1..], sep)
  }

  /** The lengths of all of `parts` together. */
  function TotalLength(parts: seq<string>): (n: nat)
  {
    if parts == [] then 0 else |parts[0]| + TotalLength(parts[1..])
  }

  /** How many times `c` appears in `s`. */
  function Count(c: char, s: string): (n: nat)
    ensures n <= |s|
  {
    if s == [] then 0 else Count(c, s[..|s| - 1]) + (if s[|s| - 1] == c then 1 else 0)
  }

  /** How many times `c` appears in all of `parts` together. */
  function CountAll(c: char, parts: seq<string>): (n: nat)
    ensures n <= TotalLength(parts)
  {
    if parts == [] then 0 else Count(c, parts[0]) + CountAll(c, parts[1..])
  }

  lemma {:induction false} CountAppend(c: char, a: string, b: string)
    ensures Count(c, a + b) == Count(c, a) + Count(c, b)
    decreases |b|
  {
    if b == [] {
      assert a + b == a;
    } else {
      assert (a + b)[..|a + b| - 1] == a + b[..|b| - 1];
      CountAppend(c, a, b[..|b| - 1]);
    }
  }

  /** Joining with a one-character separator adds exactly one separator
      between each pair of neighbours and changes no other count. */
  lemma {:induction false} JoinCount(parts: seq<string>, sep: char, c: char)
    requires |parts| >= 1
    ensures Count(c, Join(parts, [sep])) == CountAll(c, parts) + (if c == sep then |parts| - 1 else 0)
    decreases |parts|
  {
    if |parts| > 1 {
      JoinCount(parts[1..], sep, c);
      CountAppend(c, parts[0], [sep]);
      CountAppend(c, parts[0] + [sep], Join(parts[1..], [sep]));
      assert Count(c, [sep]) == Count(c, []) + (if sep == c then 1 else 0);
    } else {
      assert CountAll(c, parts[1..]) == 0;
    }
  }

  /** A character that is in neither the pieces nor the separator is not in their join. */
  lemma {:induction false} JoinAvoids(parts: seq<string>, sep: string, c: char)
    requires c !in sep
    requires forall i :: 0 <= i < |parts| ==> c !in parts[i]
    ensures c !in Join(parts, sep)
    decreases |parts|
  {
    if |parts| > 1 {
      JoinAvoids(parts[1..], sep, c);
    }
  }

  /** `s` is the piece of `t` that starts at index `i`. */
  predicate OccursAt(s: string, t: string, i: int) {
    0 <= i <= |t| - |s| && t[i..i + |s|] == s
  }

  /** `s` is a contiguous piece of `t`. */
  ghost predicate Occurs(s: string, t: string) {
    exists i :: OccursAt(s, t, i)
  }

  lemma OccursBetween(p: string, s: string, q: string)
    ensures Occurs(s, p + s + q)
  {
    var t := p + s + q;
    assert t[|p|..|p| + |s|] == s;
    assert OccursAt(s, t, |p|);
  }

  lemma OccursTransitive(a: string, b: string, c: string)
    requires Occurs(a, b) && Occurs(b, c)
    ensures Occurs(a, c)
  {
    var i :| OccursAt(a, b, i);
    var j :| OccursAt(b, c, j);
    forall m | 0 <= m < |a| ensures c[j + i..j + i + |a|][m] == a[m] {
      assert a[m] == b[i + m] == c[j + i + m];
    }
    assert c[j + i..j + i + |a|] == a;
    assert OccursAt(a, c, j + i);
  }

  /** Every piece of a join occurs in it. */
  lemma {:induction false} JoinOccurs(parts: seq<string>, sep: string, k: nat)
    requires k < |parts|
    ensures Occurs(parts[k], Join(parts, sep))
    decreases |parts|
  {
    if |parts| == 1 {
      OccursBetween("", parts[0], "");
      assert "" + parts[0] + "" == parts[0];
    } else if k == 0 {
      OccursBetween("", parts[0], sep + Join(parts[1..], sep));
      assert "" + parts[0] + (sep + Join(parts[1..], sep)) == Join(parts, sep);
    } else {
      JoinOccurs(parts[1..], sep, k - 1);
      OccursBetween(parts[0] + sep, Join(parts[1..], sep), "");
      assert parts[0] + sep + Join(parts[1..], sep) + "" == Join(parts, sep);
      OccursTransitive(parts[k], Join(parts[1..], sep), Join(parts, sep));
    }
  }

  /** The brackets the renderer writes: parentheses, and the floor and
      ceiling brackets that also delimit `⌊…⌉` (round). */
  predicate IsOpening(c: char) {
    c == '(' || c == '⌊' || c == '⌈'
  }

  predicate IsClosing(c: char) {
    c == ')' || c == '⌋' || c == '⌉'
  }

  /** Opening minus closing brackets in `s`. */
  function Net(s: string): (n: int)
    ensures -|s| <= n <= |s|
  {
    if s == [] then 0
    else Net(s[..|s| - 1]) + (if IsOpening(s[|s| - 1]) then 1 else if IsClosing(s[|s| - 1]) then -1 else 0)
  }

  /** `Net` of the first `k` characters of `s`. */
  function NetPrefix(s: string, k: nat): (n: int)
    requires k <= |s|
  {
    Net(s[..k])
  }

  predicate BracketFree(s: string) {
    forall i :: 0 <= i < |s| ==> !IsOpening(s[i]) && !IsClosing(s[i])
  }

  /** Every closing bracket closes an earlier opening one, and every opening
      bracket is closed. */
  predicate Balanced(s: string) {
    Net(s) == 0 && forall k :: 0 <= k <= |s| ==> NetPrefix(s, k) >= 0
  }

  /** `s` is one bracketed group: its first bracket is closed by its last
      and by no earlier one, so a reader takes all of `s` as one operand. */
  predicate Enclosed(s: string) {
    && |s| >= 2 && IsOpening(s[0]) && IsClosing(s[|s| - 1])
    && Balanced(s)
    && forall k :: 1 <= k < |s| ==> NetPrefix(s, k) >= 1
  }

  lemma {:induction false} NetAppend(a: string, b: string)
    ensures Net(a + b) == Net(a) + Net(b)
    decreases |b|
  {
    if b == [] {
      assert a + b == a;
    } else {
      assert (a + b)[..|a + b| - 1] == a + b[..|b| - 1];
      NetAppend(a, b[..|b| - 1]);
    }
  }

  lemma {:induction false} BracketFreeNet(s: string)
    requires BracketFree(s)
    ensures Net(s) == 0
    decreases |s|
  {
    if s != [] {
      assert BracketFree(s[..|s| - 1]) by {
        forall i | 0 <= i < |s| - 1 ensures s[..|s| - 1][i] == s[i] { }
      }
      BracketFreeNet(s[..|s| - 1]);
    }
  }

  lemma BracketFreeBalanced(s: string)
    requires BracketFree(s)
    ensures Balanced(s)
  {
    BracketFreeNet(s);
    forall k | 0 <= k <= |s| ensures NetPrefix(s, k) >= 0 {
      assert BracketFree(s[..k]) by {
        forall i | 0 <= i < k ensures s[..k][i] == s[i] { }
      }
      BracketFreeNet(s[..k]);
    }
  }

  lemma BalancedConcat(a: string, b: string)
    requires Balanced(a) && Balanced(b)
    ensures Balanced(a + b)
  {
    NetAppend(a, b);
    forall k | 0 <= k <= |a + b| ensures NetPrefix(a + b, k) >= 0 {
      if k <= |a| {
        assert (a + b)[..k] == a[..k];
        assert NetPrefix(a, k) >= 0;
      } else {
        assert (a + b)[..k] == a + b[..k - |a|];
        NetAppend(a, b[..k - |a|]);
        assert NetPrefix(b, k - |a|) >= 0;
      }
    }
  }

  /** Putting a balanced string between an opening and a closing bracket
      gives one enclosed group. */
  lemma WrapEnclosed(open: char, s: string, close: char)
    requires IsOpening(open) && IsClosing(close) && Balanced(s)
    ensures Enclosed([open] + s + [close])
  {
    var g := [open] + s + [close];
    NetAppend([open] + s, [close]);
    NetAppend([open], s);
    assert Net([open]) == 1 by { assert [open][..0] == []; }
    assert Net([close]) == -1 by { assert [close][..0] == []; }
    forall k | 1 <= k < |g| ensures NetPrefix(g, k) >= 1 {
      assert g[..k] == [open] + s[..k - 1];
      NetAppend([open], s[..k - 1]);
      assert NetPrefix(s, k - 1) >= 0;
    }
    assert NetPrefix(g, 0) == 0 by { assert g[..0] == []; }
    assert NetPrefix(g, |g|) == 0 by { assert g[..|g|] == g; }
  }

  lemma {:induction false} JoinBalanced(parts: seq<string>, sep: string)
    requires BracketFree(sep)
    requires forall i :: 0 <= i < |parts| ==> Balanced(parts[i])
    ensures Balanced(Join(parts, sep))
    decreases |parts|
  {
    if |parts| == 0 {
      BracketFreeBalanced("");
    } else if |parts| > 1 {
      JoinBalanced(parts[1..], sep);
      BracketFreeBalanced(sep);
      BalancedConcat(parts[0], sep);
      BalancedConcat(parts[0] + sep, Join(parts[1..], sep));
    }
  }

  /** Every `c` in `s` stands inside a bracket, so a reader who splits `s` at
      `c` outside all brackets does not split it at all. */
  predicate Shielded(c: char, s: string) {
    forall k :: 0 <= k < |s| && s[k] == c ==> NetPrefix(s, k) >= 1
  }

  lemma EnclosedShielded(c: char, s: string)
    requires Enclosed(s) && !IsOpening(c)
    ensures Shielded(c, s)
  {
  }

  lemma AbsentShielded(c: char, s: string)
    requires c !in s
    ensures Shielded(c, s)
  {
  }

  lemma ShieldedConcat(c: char, a: string, b: string)
    requires Balanced(a) && Shielded(c, a) && Shielded(c, b)
    ensures Shielded(c, a + b)
  {
    var t := a + b;
    forall k | 0 <= k < |t| && t[k] == c ensures NetPrefix(t, k) >= 1 {
      if k < |a| {
        assert t[..k] == a[..k];
        assert a[k] == c;
      } else {
        assert t[..k] == a + b[..k - |a|];
        NetAppend(a, b[..k - |a|]);
        assert b[k - |a|] == c;
      }
    }
  }

  /** Joining shielded balanced pieces with a separator that holds neither
      `c` nor a bracket keeps every `c` shielded. */
  lemma {:induction false} JoinShielded(parts: seq<string>, sep: string, c: char)
    requires BracketFree(sep) && c !in sep
    requires forall i :: 0 <= i < |parts| ==> Balanced(parts[i]) && Shielded(c, parts[i])
    ensures Shielded(c, Join(parts, sep))
    decreases |parts|
  {
    if |parts| == 0 {
      AbsentShielded(c, "");
    } else if |parts| > 1 {
      JoinShielded(parts[1..], sep, c);
      AbsentShielded(c, sep);
      ShieldedConcat(c, parts[0], sep);
      BracketFreeBalanced(sep);
      BalancedConcat(parts[0], sep);
      ShieldedConcat(c, parts[0] + sep, Join(parts[1..], sep));
    }
  }
}
