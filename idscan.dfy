/** The `re.findall(r'\{id=(\d+)\}', s)` scan of convert_id_to_pv
    (sr_audit.py:111): a left-to-right search that, after a match, resumes
    right after it, and returns the digit group of every match. Only ASCII
    digits are modelled. */
module IdScan {
  import opened Text

  /** The length of the run of digits starting at position `i`. */
  function DigitRun(s: string, i: nat): (n: nat)
    requires i <= |s|
    ensures i + n <= |s|
    ensures forall k :: i <= k < i + n ==> IsDigit(s[k])
    ensures i + n < |s| ==> !IsDigit(s[i + n])
    decreases |s| - i
  {
    if i < |s| && IsDigit(s[i]) then 1 + DigitRun(s, i + 1) else 0
  }

  /** The pattern matches at position `i`: `{id=`, one or more digits, `}`.
      The greedy `\d+` can only end where the digit run ends, since `}` is
      not a digit. */
  predicate MatchAt(s: string, i: nat)
    requires i <= |s|
  {
    && i + 4 <= |s|
    && s[i] == '{' && s[i + 1] == 'i' && s[i + 2] == 'd' && s[i + 3] == '='
    && DigitRun(s, i + 4) > 0
    && i + 4 + DigitRun(s, i + 4) < |s|
    && s[i + 4 + DigitRun(s, i + 4)] == '}'
  }

  /** The captured digits of the match at `i`. */
  function MatchDigits(s: string, i: nat): (d: string)
    requires i <= |s| && MatchAt(s, i)
    ensures d != [] && AllDigits(d)
  {
    s[i + 4..i + 4 + DigitRun(s, i + 4)]
  }

  /** The position just after the match at `i`. */
  function MatchEnd(s: string, i: nat): (e: nat)
    requires i <= |s| && MatchAt(s, i)
    ensures i < e <= |s|
  {
    i + 5 + DigitRun(s, i + 4)
  }

  /** The captured groups of all matches found from position `i` on. */
  function FindFrom(s: string, i: nat): seq<string>
    requires i <= |s|
    decreases |s| - i
  {
    if i == |s| then []
    else if MatchAt(s, i) then [MatchDigits(s, i)] + FindFrom(s, MatchEnd(s, i))
    else FindFrom(s, i + 1)
  }

  /** re.findall over the whole string. */
  function FindIds(s: string): seq<string>
  {
    FindFrom(s, 0)
  }

  /** Every captured group is a non-empty string of digits. */
  lemma {:induction false} FindFromDigits(s: string, i: nat)
    requires i <= |s|
    ensures forall t :: t in FindFrom(s, i) ==> t != [] && AllDigits(t)
    decreases |s| - i
  {
    if i < |s| {
      if MatchAt(s, i) {
        FindFromDigits(s, MatchEnd(s, i));
      } else {
        FindFromDigits(s, i + 1);
      }
    }
  }

  /** The scan finds something exactly when the pattern matches somewhere. */
  lemma {:induction false} FindFromEmpty(s: string, i: nat)
    requires i <= |s|
    ensures FindFrom(s, i) == [] <==> forall k :: i <= k <= |s| ==> !MatchAt(s, k)
    decreases |s| - i
  {
    if i < |s| && !MatchAt(s, i) {
      FindFromEmpty(s, i + 1);
    }
  }

  /** The text of one id reference, `{id=<digits>}`. */
  function Token(d: string): string
  {
    "{id=" + d + "}"
  }

  /** References to `ds`, one after another, separated by `sep`. */
  function Tokens(ds: seq<string>, sep: string): string
  {
    if ds == [] then ""
    else if |ds| == 1 then Token(ds[0])
    else Token(ds[0]) + sep + Tokens(ds[1..], sep)
  }

  /** A string in which no match can start. */
  predicate NoBrace(s: string)
  {
    forall k :: 0 <= k < |s| ==> s[k] != '{'
  }

  /** The scan of a suffix does not depend on what precedes it. */
  lemma {:induction false} FindShift(p: string, r: string, j: nat)
    requires j <= |r|
    ensures FindFrom(p + r, |p| + j) == FindFrom(r, j)
    decreases |r| - j
  {
    var s := p + r;
    if j < |r| {
      MatchShift(p, r, j);
      if MatchAt(r, j) {
        FindShift(p, r, MatchEnd(r, j));
      } else {
        FindShift(p, r, j + 1);
      }
    }
  }

  lemma {:induction false} DigitRunShift(p: string, r: string, j: nat)
    requires j <= |r|
    ensures DigitRun(p + r, |p| + j) == DigitRun(r, j)
    decreases |r| - j
  {
    if j < |r| {
      assert (p + r)[|p| + j] == r[j];
      DigitRunShift(p, r, j + 1);
    }
  }

  lemma MatchShift(p: string, r: string, j: nat)
    requires j <= |r|
    ensures MatchAt(p + r, |p| + j) <==> MatchAt(r, j)
    ensures MatchAt(r, j) ==>
              MatchDigits(p + r, |p| + j) == MatchDigits(r, j)
              && MatchEnd(p + r, |p| + j) == |p| + MatchEnd(r, j)
  {
    var s := p + r;
    var i := |p| + j;
    if j + 4 <= |r| {
      DigitRunShift(p, r, j + 4);
      var n := DigitRun(r, j + 4);
      assert s[i] == r[j] && s[i + 1] == r[j + 1] && s[i + 2] == r[j + 2] && s[i + 3] == r[j + 3];
      if j + 4 + n < |r| {
        assert s[i + 4 + n] == r[j + 4 + n];
      }
      if MatchAt(r, j) {
        assert s[i + 4..i + 4 + n] == r[j + 4..j + 4 + n];
      }
    }
  }

  /** Skipping a stretch with no `{` finds nothing in it. */
  lemma {:induction false} FindSkip(p: string, r: string, k: nat)
    requires k <= |p| && NoBrace(p)
    ensures FindFrom(p + r, k) == FindFrom(p + r, |p|)
    decreases |p| - k
  {
    if k < |p| {
      assert (p + r)[k] == p[k];
      FindSkip(p, r, k + 1);
    }
  }

  /** One reference at the front is found first. */
  lemma TokenFirst(d: string, r: string)
    requires d != [] && AllDigits(d)
    ensures FindFrom(Token(d) + r, 0) == [d] + FindFrom(Token(d) + r, |Token(d)|)
  {
    var s := Token(d) + r;
    var t := Token(d);
    assert forall k :: 0 <= k < |d| ==> s[4 + k] == d[k];
    assert DigitRun(s, 4) == |d| by {
      DigitRunPrefix(s, 4, |d|);
    }
    assert s[4..4 + |d|] == d;
  }

  /** A run of digits of length `n` followed by a non-digit. */
  lemma {:induction false} DigitRunPrefix(s: string, i: nat, n: nat)
    requires i + n < |s|
    requires forall k :: i <= k < i + n ==> IsDigit(s[k])
    requires !IsDigit(s[i + n])
    ensures DigitRun(s, i) == n
    decreases n
  {
    if n > 0 {
      DigitRunPrefix(s, i + 1, n - 1);
    }
  }

  /** Round trip: scanning a text made of references separated by a text
      with no `{` finds exactly the referenced digit strings, in order. */
  lemma {:induction false} FindTokens(ds: seq<string>, sep: string)
    requires forall k :: 0 <= k < |ds| ==> ds[k] != [] && AllDigits(ds[k])
    requires NoBrace(sep)
    ensures FindIds(Tokens(ds, sep)) == ds
  {
    if ds == [] {
    } else if |ds| == 1 {
      TokenFirst(ds[0], "");
      assert Token(ds[0]) + "" == Token(ds[0]);
    } else {
      var t, rest := Token(ds[0]), Tokens(ds[1..], sep);
      assert Tokens(ds, sep) == t + (sep + rest);
      TokenFirst(ds[0], sep + rest);
      FindShift(t, sep + rest, 0);
      assert FindFrom(sep + rest, 0) == FindFrom(sep + rest, |sep|) by {
        FindSkip(sep, rest, 0);
      }
      FindShift(sep, rest, 0);
      FindTokens(ds[1..], sep);
      assert [ds[0]] + ds[1..] == ds;
    }
  }
}
