/** split_changes (sr_audit.py:92-104): the bracket-aware splitter that cuts
    one "Change Log" cell into its `field=value` fragments. A comma cuts only
    where the running bracket depth is exactly 0; the depth is never checked
    for going negative. The scanner's state after the first `i` characters
    of `s` is described by functions of `(s, i)`. */
module Tokenizer {
  import opened Text

  /** What one character adds to the bracket depth. */
  function Delta(c: char): int
  {
    if c == '[' || c == '{' then 1
    else if c == ']' || c == '}' then -1
    else 0
  }

  /** The scanner's state: the pieces it has closed so far, the piece
      `cur` it is still building (none of them stripped yet) and the depth
      counter `lvl`. */
  datatype Scanner = Scanner(closed: seq<string>, cur: string, lvl: int)

  /** The state after scanning `s[..i]`. */
  function Scan(s: string, i: nat): Scanner
    requires i <= |s|
  {
    if i == 0 then Scanner([], "", 0)
    else
      var st := Scan(s, i - 1);
      var c := s[i - 1];
      if c == ',' && st.lvl == 0 then Scanner(st.closed + [st.cur], "", 0)
      else Scanner(st.closed, st.cur + [c], st.lvl + Delta(c))
  }

  /** The value of `lvl` after scanning `s[..i]`: opening brackets minus
      closing ones; it may be negative. */
  function Depth(s: string, i: nat): int
    requires i <= |s|
  {
    Scan(s, i).lvl
  }

  /** Position `i` of `s` holds a comma that the scanner treats as a separator. */
  predicate TopLevelComma(s: string, i: nat)
    requires i < |s|
  {
    s[i] == ',' && Depth(s, i) == 0
  }

  /** The depth counter is the running sum of the bracket deltas. */
  lemma DepthStep(s: string, i: nat)
    requires 0 < i <= |s|
    ensures Depth(s, i) == Depth(s, i - 1) + Delta(s[i - 1])
  {
  }

  /** All pieces of `s`, the unfinished last one included. */
  function Pieces(s: string): (r: seq<string>)
    ensures r != []
  {
    var st := Scan(s, |s|);
    st.closed + [st.cur]
  }

  /** Every piece whitespace-stripped. */
  function StripAll(ps: seq<string>): (r: seq<string>)
    ensures |r| == |ps|
    ensures forall k :: 0 <= k < |ps| ==> r[k] == Strip(ps[k])
  {
    seq(|ps|, k requires 0 <= k < |ps| => Strip(ps[k]))
  }

  /** The value split_changes returns: the stripped pieces, where an empty
      unfinished last piece is not emitted. */
  function Fragments(log: string): seq<string>
  {
    var st := Scan(log, |log|);
    StripAll(if st.cur == "" then st.closed else st.closed + [st.cur])
  }

  /** split_changes: the character loop over `log` with `parts`, `cur` and
      `lvl`. */
  method SplitChanges(log: string) returns (parts: seq<string>)
    ensures parts == Fragments(log)
  {
    parts := [];
    var cur := "";
    var lvl := 0;
    var i := 0;
    while i < |log|
      invariant 0 <= i <= |log|
      invariant lvl == Scan(log, i).lvl
      invariant cur == Scan(log, i).cur
      invariant parts == StripAll(Scan(log, i).closed)
    {
      var ch := log[i];
      if ch == ',' && lvl == 0 {
        parts := parts + [Strip(cur)];
        cur := "";
      } else {
        if ch == '[' || ch == '{' {
          lvl := lvl + 1;
        } else if ch == ']' || ch == '}' {
          lvl := lvl - 1;
        }
        cur := cur + [ch];
      }
      i := i + 1;
    }
    ghost var st := Scan(log, |log|);
    assert st.cur == cur && parts == StripAll(st.closed);
    if cur != "" {
      StripAllSnoc(st.closed, cur);
      parts := parts + [Strip(cur)];
      assert parts == StripAll(st.closed + [st.cur]);
    }
    assert Fragments(log) == StripAll(if st.cur == "" then st.closed else st.closed + [st.cur]);
  }

  lemma StripAllSnoc(ps: seq<string>, p: string)
    ensures StripAll(ps + [p]) == StripAll(ps) + [Strip(p)]
  {
  }

  lemma StripAllConcat(xs: seq<string>, ys: seq<string>)
    ensures StripAll(xs + ys) == StripAll(xs) + StripAll(ys)
  {
  }

  /** Strictly increasing positions, all below `n`. */
  ghost predicate CutsWithin(cs: seq<nat>, n: nat)
  {
    && (forall i, j :: 0 <= i < j < |cs| ==> cs[i] < cs[j])
    && (forall i :: 0 <= i < |cs| ==> cs[i] < n)
  }

  /** The positions of the separator commas among the first `i` characters. */
  function Cuts(s: string, i: nat): (r: seq<nat>)
    requires i <= |s|
    ensures CutsWithin(r, i)
  {
    if i == 0 then []
    else if TopLevelComma(s, i - 1) then Cuts(s, i - 1) + [i - 1]
    else Cuts(s, i - 1)
  }

  /** The cuts are exactly the commas at depth 0. */
  lemma {:induction false} CutsExactly(s: string, i: nat, k: nat)
    requires k < i <= |s|
    ensures k in Cuts(s, i) <==> TopLevelComma(s, k)
  {
    var cs := Cuts(s, i - 1);
    if k < i - 1 {
      CutsExactly(s, i - 1, k);
      assert k in cs + [i - 1] <==> k in cs;
    } else {
      assert forall j :: 0 <= j < |cs| ==> cs[j] != k;
      assert k !in cs;
    }
  }

  /** The substrings of `s` between the given cut positions (the characters
      at the cut positions themselves are dropped). */
  function SplitAt(s: string, cs: seq<nat>): (r: seq<string>)
    requires CutsWithin(cs, |s|)
    ensures |r| == |cs| + 1
    decreases |cs|
  {
    if cs == [] then [s]
    else
      var k := cs[|cs| - 1];
      SplitAt(s[..k], cs[..|cs| - 1]) + [s[k + 1..]]
  }

  /** Appending a character extends the last piece of any split whose cuts
      all lie before it. */
  lemma SplitAtSnoc(s: string, cs: seq<nat>, c: char)
    requires CutsWithin(cs, |s|)
    ensures var r := SplitAt(s, cs);
            SplitAt(s + [c], cs) == r[..|cs|] + [r[|cs|] + [c]]
  {
    if cs != [] {
      var k := cs[|cs| - 1];
      assert (s + [c])[..k] == s[..k];
      assert (s + [c])[k + 1..] == s[k + 1..] + [c];
    }
  }

  /** Appending a cut comma opens an empty last piece. */
  lemma SplitAtCut(p: string, cs: seq<nat>)
    requires CutsWithin(cs, |p|)
    ensures CutsWithin(cs + [|p|], |p| + 1)
    ensures SplitAt(p + [','], cs + [|p|]) == SplitAt(p, cs) + [""]
  {
    var s, ds := p + [','], cs + [|p|];
    assert ds[..|ds| - 1] == cs;
    assert s[..|p|] == p;
    assert s[|p| + 1..] == [];
  }

  /** The pieces are exactly the substrings between the commas at depth 0:
      no other comma splits, and every such comma does. */
  lemma {:induction false} ScanAtCuts(s: string, i: nat)
    requires i <= |s|
    ensures Scan(s, i).closed + [Scan(s, i).cur] == SplitAt(s[..i], Cuts(s, i))
  {
    if i > 0 {
      ScanAtCuts(s, i - 1);
      ScanAtCutsStep(s, i);
    }
  }

  lemma ScanAtCutsStep(s: string, i: nat)
    requires 0 < i <= |s|
    requires Scan(s, i - 1).closed + [Scan(s, i - 1).cur] == SplitAt(s[..i - 1], Cuts(s, i - 1))
    ensures Scan(s, i).closed + [Scan(s, i).cur] == SplitAt(s[..i], Cuts(s, i))
  {
    var p, c := s[..i - 1], s[i - 1];
    var st, cs := Scan(s, i - 1), Cuts(s, i - 1);
    assert s[..i] == p + [c];
    if TopLevelComma(s, i - 1) {
      SplitAtCut(p, cs);
    } else {
      SplitAtSnoc(p, cs, c);
      var r := SplitAt(p, cs);
      assert r[..|cs|] == st.closed && r[|cs|] == st.cur by {
        assert r == st.closed + [st.cur];
      }
    }
  }

  /** The depth rule for the whole log: the pieces are the substrings
      between the commas at depth 0, and those are exactly the cuts. */
  lemma DepthRule(s: string)
    ensures Pieces(s) == SplitAt(s, Cuts(s, |s|))
    ensures forall k :: 0 <= k < |s| ==> (k in Cuts(s, |s|) <==> TopLevelComma(s, k))
  {
    ScanAtCuts(s, |s|);
    assert s[..|s|] == s;
    forall k | 0 <= k < |s|
      ensures k in Cuts(s, |s|) <==> TopLevelComma(s, k)
    {
      CutsExactly(s, |s|, k);
    }
  }

  /** Joining the pieces back with "," gives the scanned text: the splitter
      loses nothing before stripping. */
  lemma {:induction false} PiecesJoin(s: string, i: nat)
    requires i <= |s|
    ensures Join(Scan(s, i).closed + [Scan(s, i).cur], ",") == s[..i]
  {
    if i > 0 {
      PiecesJoin(s, i - 1);
      var st := Scan(s, i - 1);
      assert s[..i] == s[..i - 1] + [s[i - 1]];
      if TopLevelComma(s, i - 1) {
        JoinSnoc(st.closed + [st.cur], "", ",");
      } else {
        JoinExtendLast(st.closed, st.cur, s[i - 1], ",");
      }
    }
  }

  /** Number of commas among the first `i` characters. */
  function Commas(s: string, i: nat): nat
    requires i <= |s|
  {
    if i == 0 then 0 else Commas(s, i - 1) + (if s[i - 1] == ',' then 1 else 0)
  }

  /** One closed piece per separator comma, and no more separators than
      commas. */
  lemma {:induction false} ClosedCount(s: string, i: nat)
    requires i <= |s|
    ensures |Scan(s, i).closed| == |Cuts(s, i)| <= Commas(s, i)
  {
    if i > 0 {
      ClosedCount(s, i - 1);
    }
  }

  predicate BracketFree(s: string)
  {
    forall i :: 0 <= i < |s| ==> Delta(s[i]) == 0
  }

  /** Without brackets every comma is a separator. */
  lemma {:induction false} CutsBracketFree(s: string, i: nat)
    requires i <= |s| && BracketFree(s)
    ensures Depth(s, i) == 0
    ensures |Cuts(s, i)| == Commas(s, i)
  {
    if i > 0 {
      CutsBracketFree(s, i - 1);
    }
  }

  /** The number of fragments: one per separator comma, plus one for a
      non-empty last piece. */
  lemma FragmentsCount(log: string)
    ensures var n := |Cuts(log, |log|)|;
            |Fragments(log)| == if Scan(log, |log|).cur == "" then n else n + 1
    ensures |Fragments(log)| <= Commas(log, |log|) + 1
    ensures BracketFree(log) ==> |Cuts(log, |log|)| == Commas(log, |log|)
  {
    ClosedCount(log, |log|);
    if BracketFree(log) {
      CutsBracketFree(log, |log|);
    }
  }

  /** An empty log gives no fragment. */
  lemma EmptyLog()
    ensures Fragments("") == []
  {
  }

  /** Every fragment is stripped: no whitespace at either end. */
  lemma FragmentsStripped(log: string, k: nat)
    requires k < |Fragments(log)|
    ensures var f := Fragments(log)[k];
            f != "" ==> !IsSpace(f[0]) && !IsSpace(f[|f| - 1])
  {
    var st := Scan(log, |log|);
    StripAllStripped(if st.cur == "" then st.closed else st.closed + [st.cur], k);
  }

  lemma StripAllStripped(ps: seq<string>, k: nat)
    requires k < |ps|
    ensures var f := StripAll(ps)[k];
            f != "" ==> !IsSpace(f[0]) && !IsSpace(f[|f| - 1])
  {
    StripMiddle(ps[k]);
  }

  /** The scan of a prefix does not depend on what follows it. */
  lemma {:induction false} ScanPrefix(a: string, b: string, i: nat)
    requires i <= |a|
    ensures Scan(a + b, i) == Scan(a, i)
  {
    if i > 0 {
      ScanPrefix(a, b, i - 1);
      assert (a + b)[i - 1] == a[i - 1];
    }
  }

  /** After a prefix that ends at depth 0 with nothing pending, the rest is
      scanned as if on its own. */
  lemma {:induction false} ScanAppend(x: string, b: string, j: nat)
    requires j <= |b|
    requires Scan(x, |x|).lvl == 0 && Scan(x, |x|).cur == ""
    ensures Scan(x + b, |x| + j)
         == Scanner(Scan(x, |x|).closed + Scan(b, j).closed, Scan(b, j).cur, Scan(b, j).lvl)
  {
    var cx := Scan(x, |x|).closed;
    if j == 0 {
      ScanPrefix(x, b, |x|);
      assert cx + [] == cx;
    } else {
      ScanAppend(x, b, j - 1);
      assert (x + b)[|x| + j - 1] == b[j - 1];
      var st := Scan(b, j - 1);
      assert cx + st.closed + [st.cur] == cx + (st.closed + [st.cur]);
    }
  }

  /** The same for the whole of `b`. */
  lemma ScanAppendAll(x: string, b: string)
    requires Scan(x, |x|).lvl == 0 && Scan(x, |x|).cur == ""
    ensures Scan(x + b, |x + b|)
         == Scanner(Scan(x, |x|).closed + Scan(b, |b|).closed, Scan(b, |b|).cur, Scan(b, |b|).lvl)
  {
    ScanAppend(x, b, |b|);
  }

  /** A comma at depth 0 closes the whole pending piece. */
  lemma ScanComma(a: string)
    requires Depth(a, |a|) == 0
    ensures Scan(a + [','], |a + [',']|) == Scanner(Pieces(a), "", 0)
  {
    ScanPrefix(a, [','], |a|);
    assert (a + [','])[|a|] == ',';
  }

  /** A separator comma splits the pieces in two independent halves. */
  lemma PiecesSplit(a: string, b: string)
    requires Depth(a, |a|) == 0
    ensures Pieces(a + [','] + b) == Pieces(a) + Pieces(b)
  {
    ScanComma(a);
    ScanAppendAll(a + [','], b);
    var pa, sb := Pieces(a), Scan(b, |b|);
    assert pa + sb.closed + [sb.cur] == pa + (sb.closed + [sb.cur]);
  }

  /** The same for the fragments: everything before a separator comma is
      emitted, even empty pieces, and the rest is split on its own. */
  lemma FragmentsSplit(a: string, b: string)
    requires Depth(a, |a|) == 0
    ensures Fragments(a + [','] + b) == StripAll(Pieces(a)) + Fragments(b)
  {
    ScanComma(a);
    ScanAppendAll(a + [','], b);
    var st := Scan(b, |b|);
    var kept := if st.cur == "" then st.closed else st.closed + [st.cur];
    assert Pieces(a) + kept
        == (if st.cur == "" then Pieces(a) + st.closed else Pieces(a) + st.closed + [st.cur]);
    StripAllConcat(Pieces(a), kept);
  }

  /** A leading comma emits an empty first fragment. */
  lemma LeadingComma(s: string)
    ensures Fragments([','] + s) == [""] + Fragments(s)
  {
    var x := [','];
    assert Scan(x, |x|) == Scanner([""], "", 0);
    ScanAppendAll(x, s);
    var st := Scan(s, |s|);
    var kept := if st.cur == "" then st.closed else st.closed + [st.cur];
    assert [""] + kept
        == (if st.cur == "" then [""] + st.closed else [""] + st.closed + [st.cur]);
    StripAllConcat([""], kept);
    assert StripAll([""]) == [""] by {
      assert Strip("") == "";
    }
  }

  /** A trailing separator comma adds no fragment: every piece before it is
      emitted, the empty one after it is not. */
  lemma TrailingComma(s: string)
    requires Depth(s, |s|) == 0
    ensures Fragments(s + [',']) == StripAll(Pieces(s))
  {
    FragmentsSplit(s, "");
    assert s + [','] + "" == s + [','];
  }

  /** Two adjacent separator commas emit an empty fragment between them. */
  lemma DoubledComma(a: string, b: string)
    requires Depth(a, |a|) == 0
    ensures Fragments(a + [','] + [','] + b) == StripAll(Pieces(a)) + [""] + Fragments(b)
  {
    FragmentsSplit(a, [','] + b);
    LeadingComma(b);
    assert a + [','] + ([','] + b) == a + [','] + [','] + b;
  }

  /** Scanning text without any separator comma only extends the piece
      being built. */
  lemma {:induction false} ScanNoCut(s: string, i: nat, j: nat)
    requires i <= j <= |s|
    requires forall k :: i <= k < j ==> !TopLevelComma(s, k)
    ensures Scan(s, j).closed == Scan(s, i).closed
    ensures Scan(s, j).cur == Scan(s, i).cur + s[i..j]
  {
    if j > i {
      ScanNoCut(s, i, j - 1);
      assert !TopLevelComma(s, j - 1);
      assert s[i..j] == s[i..j - 1] + [s[j - 1]];
    }
  }

  /** A string the scanner reads without a separator comma. */
  predicate NoCut(s: string)
  {
    forall k :: 0 <= k < |s| ==> !TopLevelComma(s, k)
  }

  /** A string with no separator comma is a single piece. */
  lemma OnePiece(s: string)
    requires NoCut(s)
    ensures Pieces(s) == [s]
  {
    ScanNoCut(s, 0, |s|);
    assert s[0..|s|] == s;
    assert Scan(s, |s|).closed == [] && Scan(s, |s|).cur == s;
  }

  /** Without a separator comma the log is one fragment, or none when it
      is empty. */
  lemma OneFragment(s: string)
    requires NoCut(s)
    ensures Fragments(s) == if s == "" then [] else [Strip(s)]
  {
    ScanNoCut(s, 0, |s|);
    assert s[0..|s|] == s;
    assert Scan(s, |s|).closed == [] && Scan(s, |s|).cur == s;
  }

  /** A log with exactly one separator comma gives the two halves,
      stripped; an empty second half is not emitted. */
  lemma TwoFragments(a: string, b: string)
    requires Depth(a, |a|) == 0
    requires NoCut(a) && NoCut(b)
    ensures Fragments(a + [','] + b) == [Strip(a)] + (if b == "" then [] else [Strip(b)])
  {
    FragmentsSplit(a, b);
    OnePiece(a);
    OneFragment(b);
  }

  /** A forward re-scan from position `i` at depth `lvl` that meets no
      separator comma. */
  predicate NoCutFrom(s: string, i: nat, lvl: int)
    requires i <= |s|
    decreases |s| - i
  {
    i == |s| || (!(s[i] == ',' && lvl == 0) && NoCutFrom(s, i + 1, lvl + Delta(s[i])))
  }

  /** The depth a forward re-scan from `i` at depth `lvl` ends with. */
  function DepthFrom(s: string, i: nat, lvl: int): int
    requires i <= |s|
    decreases |s| - i
  {
    if i == |s| then lvl else DepthFrom(s, i + 1, lvl + Delta(s[i]))
  }

  lemma {:induction false} NoCutFromSound(s: string, i: nat)
    requires i <= |s| && NoCutFrom(s, i, Depth(s, i))
    ensures forall k :: i <= k < |s| ==> !TopLevelComma(s, k)
    ensures Depth(s, |s|) == DepthFrom(s, i, Depth(s, i))
    decreases |s| - i
  {
    if i < |s| {
      DepthStep(s, i + 1);
      NoCutFromSound(s, i + 1);
    }
  }

  /** A forward re-scan of a concatenation is a re-scan of the first part
      followed by one of the second from the depth the first ends with. */
  lemma {:induction false} NoCutFromConcat(x: string, y: string, i: nat, lvl: int)
    requires i <= |x|
    ensures NoCutFrom(x + y, i, lvl) <==> NoCutFrom(x, i, lvl) && NoCutFrom(y, 0, DepthFrom(x, i, lvl))
    ensures DepthFrom(x + y, i, lvl) == DepthFrom(y, 0, DepthFrom(x, i, lvl))
    decreases |x| - i
  {
    if i < |x| {
      assert (x + y)[i] == x[i];
      NoCutFromConcat(x, y, i + 1, lvl + Delta(x[i]));
    } else {
      NoCutFromShift(x, y, 0, lvl);
    }
  }

  lemma {:induction false} NoCutFromShift(x: string, y: string, j: nat, lvl: int)
    requires j <= |y|
    ensures NoCutFrom(x + y, |x| + j, lvl) == NoCutFrom(y, j, lvl)
    ensures DepthFrom(x + y, |x| + j, lvl) == DepthFrom(y, j, lvl)
    decreases |y| - j
  {
    if j < |y| {
      assert (x + y)[|x| + j] == y[j];
      NoCutFromShift(x, y, j + 1, lvl + Delta(y[j]));
    }
  }

  /** Plain text: no comma and no bracket. */
  predicate Plain(x: string)
  {
    forall k :: 0 <= k < |x| ==> x[k] != ',' && Delta(x[k]) == 0
  }

  /** Plain text is re-scanned without a cut and leaves the depth as it was. */
  lemma {:induction false} PlainRescan(x: string, i: nat, lvl: int)
    requires i <= |x| && Plain(x)
    ensures NoCutFrom(x, i, lvl) && DepthFrom(x, i, lvl) == lvl
    decreases |x| - i
  {
    if i < |x| {
      PlainRescan(x, i + 1, lvl);
    }
  }

  /** Plain text between a pair of brackets: no cut at any depth, and the
      depth is restored. */
  lemma Bracketed(o: char, x: string, c: char, lvl: int)
    requires Plain(x) && Delta(o) == 1 && Delta(c) == -1
    ensures NoCutFrom([o] + x + [c], 0, lvl) && DepthFrom([o] + x + [c], 0, lvl) == lvl
  {
    PlainRescan(x, 0, lvl + 1);
    NoCutFromConcat([o], x, 0, lvl);
    NoCutFromConcat([o] + x, [c], 0, lvl);
  }

  /** Plain text followed by a balanced re-scan without a cut has no
      separator comma and ends at depth 0. */
  lemma PlainThen(p: string, q: string)
    requires Plain(p) && NoCutFrom(q, 0, 0) && DepthFrom(q, 0, 0) == 0
    ensures NoCut(p + q) && Depth(p + q, |p + q|) == 0
  {
    PlainRescan(p, 0, 0);
    NoCutFromConcat(p, q, 0, 0);
    NoCutFromSound(p + q, 0);
  }

  /** The first fragment of the example below: balanced, no separator. */
  lemma ExampleFirstHalf()
    ensures NoCut("siteId={id=5}") && Depth("siteId={id=5}", 13) == 0
  {
    var p, q := "siteId=", "{id=5}";
    assert Plain(p) && Plain("id=5");
    Bracketed('{', "id=5", '}', 0);
    assert ['{'] + "id=5" + ['}'] == q;
    PlainThen(p, q);
    assert p + q == "siteId={id=5}";
  }

  /** The list `[{id=1},{id=2}]`: its comma sits at depth 1 and does not cut. */
  lemma ExampleList()
    ensures NoCutFrom("[{id=1},{id=2}]", 0, 0) && DepthFrom("[{id=1},{id=2}]", 0, 0) == 0
  {
    var e1, e2 := "{id=1}", "{id=2}";
    assert Plain("id=1") && Plain("id=2");
    Bracketed('{', "id=1", '}', 1);
    Bracketed('{', "id=2", '}', 1);
    assert ['{'] + "id=1" + ['}'] == e1;
    assert ['{'] + "id=2" + ['}'] == e2;
    var l1 := "[" + e1;
    NoCutFromConcat("[", e1, 0, 0);
    var l2 := l1 + ",";
    NoCutFromConcat(l1, ",", 0, 0);
    var l3 := l2 + e2;
    NoCutFromConcat(l2, e2, 0, 0);
    NoCutFromConcat(l3, "]", 0, 0);
    assert l3 + "]" == "[{id=1},{id=2}]";
  }

  /** The second fragment of the example below. */
  lemma ExampleSecondHalf()
    ensures NoCut("specimens=[{id=1},{id=2}]")
  {
    var p, q := "specimens=", "[{id=1},{id=2}]";
    assert p + q == "specimens=[{id=1},{id=2}]";
    assert NoCut(p + q) by {
      assert Plain(p);
      ExampleList();
      PlainThen(p, q);
    }
  }

  /** Commas inside `{...}` and `[...]` do not split; the one between the
      two assignments does. */
  lemma SplitExample()
    ensures var a, b := "siteId={id=5}", "specimens=[{id=1},{id=2}]";
            Fragments(a + [','] + b) == [a, b]
  {
    var a, b := "siteId={id=5}", "specimens=[{id=1},{id=2}]";
    ExampleFirstHalf();
    ExampleSecondHalf();
    TwoFragments(a, b);
    StripTrimmed(a);
    StripTrimmed(b);
  }

  /** Depth may go negative; a comma at depth -1 is not a separator. */
  lemma NegativeDepthExample()
    ensures Fragments("]a,b") == ["]a,b"]
  {
    var s := "]a,b";
    assert Depth(s, 1) == -1;
    assert Depth(s, 2) == -1;
    assert NoCut(s) by {
      forall k | 0 <= k < |s|
        ensures !TopLevelComma(s, k)
      {
        if k != 2 {
          assert s[k] != ',';
        }
      }
    }
    OneFragment(s);
    StripTrimmed(s);
  }
}
