/** The one regular expression the rules use: `^(.*)$` with no flags.
    Without the `s` flag `.` matches any character but a line terminator, and
    without the `m` flag `^` and `$` anchor at the ends of the input. */
module LineRegex {
  import opened Values

  /** The ECMAScript line terminators: LF, CR, LINE SEPARATOR, PARAGRAPH SEPARATOR. */
  predicate IsLineTerminator(c: char)
  {
    c == '\n' || c == '\r' || c == '\U{2028}' || c == '\U{2029}'
  }

  predicate NoLineTerminator(s: string)
  {
    forall i :: 0 <= i < |s| ==> !IsLineTerminator(s[i])
  }

  /** Greedy `.*` starting at position `i`: the end of the run of
      non-terminator characters. */
  function DotStar(s: string, i: nat): (j: nat)
    requires i <= |s|
    ensures i <= j <= |s|
    decreases |s| - i
  {
    if i < |s| && !IsLineTerminator(s[i]) then DotStar(s, i + 1) else i
  }

  /** `new RegExp('^(.*)$', '').exec(s)`: the match array `[whole match, group 1]`
      or `null`. Matching is anchored at 0, so only the start position 0 can
      succeed; greedy `.*` stops at the first terminator, and backtracking to a
      shorter run cannot help because `$` then still faces a character. */
  function ExecWholeLine(s: string): Option<seq<string>>
  {
    var j := DotStar(s, 0);
    if j == |s| then Some([s[..j], s[..j]]) else None
  }

  lemma {:induction false} DotStarReachesEnd(s: string, i: nat)
    requires i <= |s|
    ensures DotStar(s, i) == |s| <==> forall k :: i <= k < |s| ==> !IsLineTerminator(s[k])
    decreases |s| - i
  {
    if i < |s| && !IsLineTerminator(s[i]) {
      DotStarReachesEnd(s, i + 1);
    }
  }

  /** The regular expression succeeds exactly on strings without a line
      terminator, and then both the match and the capture are the whole string. */
  lemma ExecWholeLineSpec(s: string)
    ensures ExecWholeLine(s).Some? <==> NoLineTerminator(s)
    ensures ExecWholeLine(s).Some? ==> ExecWholeLine(s).value == [s, s]
  {
    DotStarReachesEnd(s, 0);
    assert s[..|s|] == s;
  }

  /** A numeral never holds a line terminator, so a truthy number always matches. */
  lemma NumberMatches(n: SafeInt)
    ensures NoLineTerminator(ToJSString(Num(n)))
  {
    var d := NatDigits(if n < 0 then -n else n);
    assert forall i :: 0 <= i < |d| ==> !IsLineTerminator(d[i]);
    if n < 0 {
      var r := "-" + d;
      assert forall i :: 1 <= i < |r| ==> r[i] == d[i - 1];
    }
  }
}
