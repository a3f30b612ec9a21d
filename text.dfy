/** Python string operations used by the scripts, on `seq<char>`:
    `in`, `str.find`, `str.split(sep)`, `sep.join`, `str.replace`,
    `str.strip`, `str.rstrip(c)`, `str.lower`, `str.startswith`, `str.isdigit`;
    and the optional values that stand for a raised `ValueError`. */
module Text {

  datatype Option<T> = None | Some(value: T)

  /** The values of a sequence of options, in order, when none is `None`. */
  function AllSome<T>(xs: seq<Option<T>>): Option<seq<T>> {
    if |xs| == 0 then Some([])
    else
      match AllSome(xs[..|xs| - 1])
      case None => None
      case Some(acc) => if xs[|xs| - 1].Some? then Some(acc + [xs[|xs| - 1].value]) else None
  }

  /** There are values exactly when no entry is `None`, and then they are
      the entries' values, position by position. */
  lemma {:induction false} AllSomeEach<T>(xs: seq<Option<T>>)
    ensures AllSome(xs).Some? <==> forall k :: 0 <= k < |xs| ==> xs[k].Some?
    ensures AllSome(xs).Some? ==> |AllSome(xs).value| == |xs|
    ensures AllSome(xs).Some? ==> forall k :: 0 <= k < |xs| ==> xs[k] == Some(AllSome(xs).value[k])
  {
    if |xs| > 0 {
      var init := xs[..|xs| - 1];
      AllSomeEach(init);
      assert forall k :: 0 <= k < |init| ==> init[k] == xs[k];
    }
  }

  /** One more present entry extends the values; an absent one ends them. */
  lemma AllSomeStep<T>(xs: seq<Option<T>>, i: nat, acc: seq<T>)
    requires i < |xs| && AllSome(xs[..i]) == Some(acc)
    ensures xs[i].Some? ==> AllSome(xs[..i + 1]) == Some(acc + [xs[i].value])
  {
    assert xs[..i + 1][..i] == xs[..i];
  }

  /** The values present in a list of optional values, in order. */
  function Somes<T>(xs: seq<Option<T>>): seq<T> {
    if |xs| == 0 then []
    else
      var init := Somes(xs[..|xs| - 1]);
      match xs[|xs| - 1]
      case Some(v) => init + [v]
      case None => init
  }

  /** The values present in one more entry. */
  lemma SomesStep<T>(xs: seq<Option<T>>, i: nat)
    requires i < |xs|
    ensures Somes(xs[..i + 1]) == Somes(xs[..i]) + (if xs[i].Some? then [xs[i].value] else [])
  {
    assert xs[..i + 1][..i] == xs[..i];
  }

  /** When every entry is present, nothing is dropped. */
  lemma {:induction false} AllPresent<T>(xs: seq<Option<T>>, words: seq<T>)
    requires |xs| == |words|
    requires forall k :: 0 <= k < |xs| ==> xs[k] == Some(words[k])
    ensures Somes(xs) == words
  {
    if |xs| > 0 {
      var m := |xs| - 1;
      AllPresent(xs[..m], words[..m]);
      assert words[..m] + [words[m]] == words;
    }
  }

  /** `sep` occurs in `s` starting at index `i`. */
  predicate OccursAt(s: string, sep: string, i: nat) {
    i + |sep| <= |s| && s[i..i + |sep|] == sep
  }

  /** Character-by-character comparison of `sep[k..]` against `s` at `i + k`. */
  predicate MatchFrom(s: string, sep: string, i: nat, k: nat)
    requires i + |sep| <= |s| && k <= |sep|
    decreases |sep| - k
  {
    k == |sep| || (s[i + k] == sep[k] && MatchFrom(s, sep, i, k + 1))
  }

  lemma {:induction false} MatchFromIff(s: string, sep: string, i: nat, k: nat)
    requires i + |sep| <= |s| && k <= |sep|
    ensures MatchFrom(s, sep, i, k) <==> s[i + k..i + |sep|] == sep[k..]
    decreases |sep| - k
  {
    if k < |sep| {
      MatchFromIff(s, sep, i, k + 1);
      var a, b := s[i + k..i + |sep|], sep[k..];
      assert a == [s[i + k]] + s[i + k + 1..i + |sep|];
      assert b == [sep[k]] + sep[k + 1..];
      if a == b { assert a[0] == b[0] && a[1..] == b[1..]; }
    }
  }

  /** `s.find(sep, i)`: the first index at or after `i` where `sep` occurs. */
  function IndexFrom(s: string, sep: string, i: nat): (r: Option<nat>)
    ensures r.Some? ==> i <= r.value && OccursAt(s, sep, r.value)
    ensures r.Some? ==> forall j: nat :: i <= j < r.value ==> !OccursAt(s, sep, j)
    ensures r.None? ==> forall j: nat :: i <= j ==> !OccursAt(s, sep, j)
    decreases |s| - i
  {
    if i + |sep| > |s| then None
    else
      MatchFromIff(s, sep, i, 0);
      if MatchFrom(s, sep, i, 0) then Some(i) else IndexFrom(s, sep, i + 1)
  }

  /** `s.find(sep)`, with `None` for Python's `-1`. */
  function IndexOf(s: string, sep: string): Option<nat> {
    IndexFrom(s, sep, 0)
  }

  /** Python's `sub in s`. */
  predicate Contains(s: string, sub: string) {
    IndexOf(s, sub).Some?
  }

  lemma ContainsIff(s: string, sub: string)
    ensures Contains(s, sub) <==> exists j: nat :: OccursAt(s, sub, j)
  {
    if Contains(s, sub) { assert OccursAt(s, sub, IndexOf(s, sub).value); }
  }

  /** The pieces of `s[start..]` between non-overlapping occurrences of `sep`,
      found left to right. */
  function SplitFrom(s: string, sep: string, start: nat): (parts: seq<string>)
    requires |sep| > 0 && start <= |s|
    ensures |parts| >= 1
    decreases |s| - start
  {
    match IndexFrom(s, sep, start)
    case None => [s[start..]]
    case Some(i) => [s[start..i]] + SplitFrom(s, sep, i + |sep|)
  }

  /** `s.split(sep)` for a non-empty separator. */
  function Split(s: string, sep: string): (parts: seq<string>)
    requires |sep| > 0
    ensures |parts| >= 1
  {
    SplitFrom(s, sep, 0)
  }

  /** `sep.join(parts)`. */
  function Join(parts: seq<string>, sep: string): string {
    if |parts| == 0 then ""
    else if |parts| == 1 then parts[0]
    else parts[0] + sep + Join(parts[1..], sep)
  }

  lemma {:induction false} JoinSplitFrom(s: string, sep: string, start: nat)
    requires |sep| > 0 && start <= |s|
    ensures Join(SplitFrom(s, sep, start), sep) == s[start..]
    decreases |s| - start
  {
    match IndexFrom(s, sep, start)
    case None =>
    case Some(i) =>
      var rest := SplitFrom(s, sep, i + |sep|);
      assert SplitFrom(s, sep, start) == [s[start..i]] + rest;
      JoinSplitFrom(s, sep, i + |sep|);
      JoinFront(s[start..i], rest, sep);
      assert s[i..i + |sep|] == sep;
      SliceThree(s, start, i, i + |sep|);
  }

  lemma JoinFront(a: string, rest: seq<string>, sep: string)
    requires |rest| >= 1
    ensures Join([a] + rest, sep) == a + sep + Join(rest, sep)
  {
    assert ([a] + rest)[1..] == rest;
  }

  lemma SliceThree(s: string, a: nat, b: nat, c: nat)
    requires a <= b <= c <= |s|
    ensures s[a..] == s[a..b] + s[b..c] + s[c..]
  {
  }

  /** Joining the pieces of a split with the same separator gives back the string. */
  lemma JoinSplit(s: string, sep: string)
    requires |sep| > 0
    ensures Join(Split(s, sep), sep) == s
  {
    JoinSplitFrom(s, sep, 0);
  }

  /** A slice lying in a stretch of `s` where `sep` does not start does not contain `sep`. */
  lemma SliceLacksSeparator(s: string, sep: string, a: nat, b: nat)
    requires a <= b <= |s|
    requires forall j: nat :: a <= j && j + |sep| <= b ==> !OccursAt(s, sep, j)
    ensures !Contains(s[a..b], sep)
  {
    forall j: nat ensures !OccursAt(s[a..b], sep, j) {
      if j + |sep| <= b - a {
        var w := s[a..b];
        assert forall k :: j <= k < j + |sep| ==> w[k] == s[a + k];
        assert w[j..j + |sep|] == s[a + j..a + j + |sep|];
        assert !OccursAt(s, sep, a + j);
      }
    }
    ContainsIff(s[a..b], sep);
  }

  lemma {:induction false} SplitFromPiecesLackSeparator(s: string, sep: string, start: nat)
    requires |sep| > 0 && start <= |s|
    ensures forall k :: 0 <= k < |SplitFrom(s, sep, start)| ==> !Contains(SplitFrom(s, sep, start)[k], sep)
    decreases |s| - start
  {
    match IndexFrom(s, sep, start)
    case None =>
      SliceLacksSeparator(s, sep, start, |s|);
      assert s[start..] == s[start..|s|];
    case Some(i) =>
      SplitFromPiecesLackSeparator(s, sep, i + |sep|);
      SliceLacksSeparator(s, sep, start, i);
      ConsLacksSeparator(s[start..i], SplitFrom(s, sep, i + |sep|), sep);
  }

  lemma ConsLacksSeparator(p: string, rest: seq<string>, sep: string)
    requires !Contains(p, sep)
    requires forall k :: 0 <= k < |rest| ==> !Contains(rest[k], sep)
    ensures forall k :: 0 <= k < |[p] + rest| ==> !Contains(([p] + rest)[k], sep)
  {
    forall k | 0 <= k < |[p] + rest| ensures !Contains(([p] + rest)[k], sep) {
      if k > 0 { assert ([p] + rest)[k] == rest[k - 1]; }
    }
  }

  /** No piece of a split contains the separator. */
  lemma SplitPiecesLackSeparator(s: string, sep: string)
    requires |sep| > 0
    ensures forall k :: 0 <= k < |Split(s, sep)| ==> !Contains(Split(s, sep)[k], sep)
  {
    SplitFromPiecesLackSeparator(s, sep, 0);
  }

  /** The first piece of a split is everything before the first occurrence,
      and there is more than one piece exactly when the separator occurs. */
  lemma SplitHead(s: string, sep: string)
    requires |sep| > 0
    ensures IndexOf(s, sep).None? ==> Split(s, sep) == [s]
    ensures IndexOf(s, sep).Some? ==> Split(s, sep)[0] == s[..IndexOf(s, sep).value]
    ensures |Split(s, sep)| >= 2 <==> Contains(s, sep)
  {
  }

  /** A single-character separator occurs exactly where that character is. */
  lemma OccursAtChar(s: string, c: char, j: nat)
    ensures OccursAt(s, [c], j) <==> j < |s| && s[j] == c
  {
    if j < |s| { assert s[j..j + 1] == [s[j]]; }
  }

  /** `find` of a character stops at its first occurrence. */
  lemma IndexFromChar(s: string, c: char, i: nat, q: nat)
    requires i <= q < |s| && s[q] == c
    requires forall j :: i <= j < q ==> s[j] != c
    ensures IndexFrom(s, [c], i) == Some(q)
  {
    OccursAtChar(s, c, q);
    var r := IndexFrom(s, [c], i);
    if r.Some? { OccursAtChar(s, c, r.value); }
  }

  /** `find` of a character that does not occur gives nothing. */
  lemma IndexFromNoChar(s: string, c: char, i: nat)
    requires forall j :: i <= j < |s| ==> s[j] != c
    ensures IndexFrom(s, [c], i).None?
  {
    var r := IndexFrom(s, [c], i);
    if r.Some? { OccursAtChar(s, c, r.value); }
  }

  /** No piece contains the character `c`. */
  predicate CharFree(parts: seq<string>, c: char) {
    forall k, j :: 0 <= k < |parts| && 0 <= j < |parts[k]| ==> parts[k][j] != c
  }

  /** With no separator left, the rest is the last piece. */
  lemma SplitFromLast(s: string, c: char, i: nat)
    requires i <= |s|
    requires forall j :: i <= j < |s| ==> s[j] != c
    ensures SplitFrom(s, [c], i) == [s[i..]]
  {
    IndexFromNoChar(s, c, i);
  }

  /** The next piece ends at the next separator. */
  lemma SplitFromNext(s: string, c: char, i: nat, q: nat)
    requires i <= q < |s| && s[q] == c
    requires forall j :: i <= j < q ==> s[j] != c
    ensures SplitFrom(s, [c], i) == [s[i..q]] + SplitFrom(s, [c], q + 1)
  {
    IndexFromChar(s, c, i, q);
  }

  lemma CharFreeTail(parts: seq<string>, c: char)
    requires |parts| >= 1 && CharFree(parts, c)
    ensures CharFree(parts[1..], c)
  {
    forall k, j | 0 <= k < |parts| - 1 && 0 <= j < |parts[1..][k]| ensures parts[1..][k][j] != c {
      assert parts[1..][k] == parts[k + 1];
    }
  }

  /** A piece without the separator after a prefix splits into itself. */
  lemma SplitFromOnlyPiece(prefix: string, p: string, c: char)
    requires forall j :: 0 <= j < |p| ==> p[j] != c
    ensures SplitFrom(prefix + p, [c], |prefix|) == [p]
  {
    var s := prefix + p;
    assert forall j :: |prefix| <= j < |s| ==> s[j] == p[j - |prefix|];
    SplitFromLast(s, c, |prefix|);
    assert s[|prefix|..] == p;
  }

  /** `sep.join` of two or more pieces, unfolded once. */
  lemma JoinCons(prefix: string, parts: seq<string>, sep: string)
    requires |parts| >= 2
    ensures prefix + Join(parts, sep) == prefix + parts[0] + sep + Join(parts[1..], sep)
  {
  }

  /** Where the first piece and the first separator of a join lie. */
  lemma JoinedAt(prefix: string, parts: seq<string>, c: char)
    requires |parts| >= 2
    ensures var s, i, p := prefix + Join(parts, [c]), |prefix|, parts[0];
      s == prefix + p + [c] + Join(parts[1..], [c]) && parts == [p] + parts[1..] &&
      i + |p| < |s| && s[i..i + |p|] == p && s[i + |p|] == c
  {
    JoinCons(prefix, parts, [c]);
  }

  /** A piece without `c`, followed by `c`, is the first piece split off. */
  lemma SplitAtFirst(s: string, t: string, i: nat, k: nat, p: string, c: char, tail: seq<string>)
    requires s == t && k == i + |p| + 1 && k <= |s| && s[i..i + |p|] == p && s[i + |p|] == c
    requires forall j :: 0 <= j < |p| ==> p[j] != c
    requires SplitFrom(t, [c], k) == tail
    ensures SplitFrom(s, [c], i) == [p] + tail
  {
    forall j | i <= j < i + |p| ensures s[j] != c {
      assert s[j] == s[i..i + |p|][j - i];
    }
    SplitFromNext(s, c, i, i + |p|);
  }

  /** Splitting after `prefix` undoes a join whose pieces lack the separator. */
  lemma {:induction false} SplitFromJoin(prefix: string, parts: seq<string>, c: char)
    requires |parts| >= 1 && CharFree(parts, c)
    ensures SplitFrom(prefix + Join(parts, [c]), [c], |prefix|) == parts
    decreases |parts|
  {
    if |parts| == 1 {
      assert forall j :: 0 <= j < |parts[0]| ==> parts[0][j] != c;
      SplitFromOnlyPiece(prefix, parts[0], c);
    } else {
      var prefix' := prefix + parts[0] + [c];
      CharFreeTail(parts, c);
      SplitFromJoin(prefix', parts[1..], c);
      assert forall j :: 0 <= j < |parts[0]| ==> parts[0][j] != c;
      JoinedAt(prefix, parts, c);
      SplitAtFirst(prefix + Join(parts, [c]), prefix' + Join(parts[1..], [c]), |prefix|, |prefix'|, parts[0], c, parts[1..]);
    }
  }

  /** Splitting on a character that no piece contains undoes the join. */
  lemma SplitJoin(parts: seq<string>, c: char)
    requires |parts| >= 1 && CharFree(parts, c)
    ensures Split(Join(parts, [c]), [c]) == parts
  {
    SplitFromJoin("", parts, c);
    assert "" + Join(parts, [c]) == Join(parts, [c]);
  }

  /** Whitespace around a string that neither starts nor ends with
      whitespace is exactly what `strip` removes. */
  lemma StripPadded(a: string, f: string, b: string)
    requires forall k :: 0 <= k < |a| ==> IsSpace(a[k])
    requires forall k :: 0 <= k < |b| ==> IsSpace(b[k])
    requires |f| > 0 && !IsSpace(f[0]) && !IsSpace(f[|f| - 1])
    ensures Strip(a + f + b) == f
  {
    var s := a + f + b;
    assert forall k :: 0 <= k < |a| ==> s[k] == a[k];
    assert forall k :: |a| + |f| <= k < |s| ==> s[k] == b[k - |a| - |f|];
    assert s[|a|] == f[0] && s[|a| + |f| - 1] == f[|f| - 1];
    assert LeadingSpaces(s) == |a|;
    var r := Strip(s);
    assert |r| > 0;
    assert s[|a| + |r| - 1] == r[|r| - 1];
    assert |r| == |f|;
    assert r == s[|a|..|a| + |f|];
  }

  /** A word lacking the character `c` that occurs in `x + [c] + y` occurs in `x` or in `y`. */
  lemma ContainsAround(x: string, c: char, y: string, w: string)
    requires forall k :: 0 <= k < |w| ==> w[k] != c
    requires !Contains(x, w) && !Contains(y, w)
    ensures !Contains(x + [c] + y, w)
  {
    var s := x + [c] + y;
    ContainsIff(x, w);
    ContainsIff(y, w);
    forall j: nat ensures !OccursAt(s, w, j) {
      if j + |w| <= |s| {
        var piece := s[j..j + |w|];
        if j + |w| <= |x| {
          assert piece == x[j..j + |w|];
          assert !OccursAt(x, w, j);
        } else if j <= |x| {
          assert piece[|x| - j] == c;
        } else {
          assert piece == y[j - |x| - 1..j - |x| - 1 + |w|];
          assert !OccursAt(y, w, j - |x| - 1);
        }
      }
    }
    ContainsIff(s, w);
  }

  /** A word containing a character that `s` lacks does not occur in `s`. */
  lemma MissingCharMissingWord(s: string, w: string, k: nat)
    requires k < |w|
    requires forall j :: 0 <= j < |s| ==> s[j] != w[k]
    ensures !Contains(s, w)
  {
    forall j: nat ensures !OccursAt(s, w, j) {
      if j + |w| <= |s| { assert s[j..j + |w|][k] == s[j + k]; }
    }
    ContainsIff(s, w);
  }

  /** A word none of whose possible placements in `s` has its `k`-th
      character in place is not in `s`. */
  lemma MisplacedCharMissingWord(s: string, w: string, k: nat)
    requires k < |w|
    requires forall j :: k <= j && j - k + |w| <= |s| ==> s[j] != w[k]
    ensures !Contains(s, w)
  {
    forall j: nat ensures !OccursAt(s, w, j) {
      if j + |w| <= |s| {
        assert s[j..j + |w|][k] == s[j + k];
        assert s[j + k] != w[k];
      }
    }
    ContainsIff(s, w);
  }

  /** The pieces of a split lack any character the split text lacks. */
  lemma {:induction false} SplitFromCharFree(s: string, sep: string, start: nat, c: char)
    requires |sep| > 0 && start <= |s|
    requires forall j :: start <= j < |s| ==> s[j] != c
    ensures CharFree(SplitFrom(s, sep, start), c)
    decreases |s| - start
  {
    match IndexFrom(s, sep, start)
    case None =>
    case Some(i) =>
      SplitFromCharFree(s, sep, i + |sep|, c);
      var rest := SplitFrom(s, sep, i + |sep|);
      var parts := [s[start..i]] + rest;
      forall k, j | 0 <= k < |parts| && 0 <= j < |parts[k]| ensures parts[k][j] != c {
        if k > 0 { assert parts[k] == rest[k - 1]; }
      }
  }

  /** Joining pieces that lack a character with a separator that lacks it
      gives a text that lacks it. */
  lemma {:induction false} JoinCharFree(parts: seq<string>, sep: string, c: char)
    requires CharFree(parts, c)
    requires forall j :: 0 <= j < |sep| ==> sep[j] != c
    ensures forall j :: 0 <= j < |Join(parts, sep)| ==> Join(parts, sep)[j] != c
  {
    if |parts| > 1 {
      CharFreeTail(parts, c);
      JoinCharFree(parts[1..], sep, c);
      var tail := Join(parts[1..], sep);
      assert Join(parts, sep) == parts[0] + sep + tail;
      forall j | 0 <= j < |parts[0] + sep + tail| ensures (parts[0] + sep + tail)[j] != c {
        if j < |parts[0]| {
          assert (parts[0] + sep + tail)[j] == parts[0][j];
        } else if j < |parts[0]| + |sep| {
          assert (parts[0] + sep + tail)[j] == sep[j - |parts[0]|];
        } else {
          assert (parts[0] + sep + tail)[j] == tail[j - |parts[0]| - |sep|];
        }
      }
    } else if |parts| == 1 {
      assert Join(parts, sep) == parts[0];
    }
  }

  /** Replacing leaves a character absent when it is absent from the text
      and from the replacement. */
  lemma ReplaceAllCharFree(s: string, target: string, replacement: string, c: char)
    requires |target| > 0
    requires forall j :: 0 <= j < |s| ==> s[j] != c
    requires forall j :: 0 <= j < |replacement| ==> replacement[j] != c
    ensures forall j :: 0 <= j < |ReplaceAll(s, target, replacement)| ==> ReplaceAll(s, target, replacement)[j] != c
  {
    SplitFromCharFree(s, target, 0, c);
    JoinCharFree(Split(s, target), replacement, c);
  }

  /** A text that ends with the only occurrence of a separator whose first
      character does not recur in it splits into the text before and an
      empty piece. */
  lemma SplitAtSuffix(x: string, sep: string)
    requires |sep| > 0 && forall m :: 0 < m < |sep| ==> sep[m] != sep[0]
    requires !Contains(x, sep)
    ensures Split(x + sep, sep) == [x, ""]
  {
    var s := x + sep;
    ContainsIff(x, sep);
    forall j: nat | j < |x| ensures !OccursAt(s, sep, j) {
      if j + |sep| <= |x| {
        assert s[j..j + |sep|] == x[j..j + |sep|];
        assert !OccursAt(x, sep, j);
      } else if j + |sep| <= |s| {
        assert s[|x|] == sep[0];
        assert s[j..j + |sep|][|x| - j] == s[|x|];
      }
    }
    assert s[|x|..|x| + |sep|] == sep;
    assert OccursAt(s, sep, |x|);
    var r := IndexFrom(s, sep, 0);
    assert r.Some? && r.value >= |x|;
    assert r.value == |x|;
    assert IndexFrom(s, sep, |s|).None?;
    assert s[0..|x|] == x;
    assert s[|s|..] == "";
    assert SplitFrom(s, sep, |s|) == [""];
    assert SplitFrom(s, sep, 0) == [x] + SplitFrom(s, sep, |x| + |sep|);
  }

  /** A separator absent from what follows a prefix is not found after it. */
  lemma IndexFromAfterPrefix(p: string, rest: string, sep: string)
    requires !Contains(rest, sep)
    ensures IndexFrom(p + rest, sep, |p|).None?
  {
    var s := p + rest;
    ContainsIff(rest, sep);
    forall j: nat | |p| <= j ensures !OccursAt(s, sep, j) {
      if j + |sep| <= |s| {
        assert s[j..j + |sep|] == rest[j - |p|..j - |p| + |sep|];
        assert !OccursAt(rest, sep, j - |p|);
      }
    }
  }

  /** `s.replace(target, replacement)`, which equals `replacement.join(s.split(target))`. */
  function ReplaceAll(s: string, target: string, replacement: string): string
    requires |target| > 0
  {
    Join(Split(s, target), replacement)
  }

  predicate StartsWith(s: string, prefix: string) {
    |prefix| <= |s| && s[..|prefix|] == prefix
  }

  /** The whitespace `str.strip()` removes and `str.isspace()` accepts:
      the ASCII controls 9 to 13 and 28 to 31, the space, and the Unicode
      spaces and line separators. */
  predicate IsSpace(c: char) {
    var n := c as int;
    (9 <= n <= 13) || (28 <= n <= 32) || n == 0x85 || n == 0xA0 || n == 0x1680
    || (0x2000 <= n <= 0x200A) || n == 0x2028 || n == 0x2029 || n == 0x202F || n == 0x205F || n == 0x3000
  }

  /** The number of whitespace characters at the start of `s`. */
  function LeadingSpaces(s: string): (n: nat)
    ensures n <= |s|
    ensures forall k :: 0 <= k < n ==> IsSpace(s[k])
    ensures n < |s| ==> !IsSpace(s[n])
  {
    if |s| > 0 && IsSpace(s[0]) then 1 + LeadingSpaces(s[1..]) else 0
  }

  /** The index where the trailing run of whitespace of `s` begins. */
  function TrailingStart(s: string): (n: nat)
    ensures n <= |s|
    ensures forall k :: n <= k < |s| ==> IsSpace(s[k])
    ensures n > 0 ==> !IsSpace(s[n - 1])
  {
    if |s| > 0 && IsSpace(s[|s| - 1]) then TrailingStart(s[..|s| - 1]) else |s|
  }

  /** `s.strip()`: the slice of `s` left after removing whitespace from both
      ends; what is removed is whitespace and what is left neither starts nor
      ends with whitespace. */
  function Strip(s: string): (r: string)
    ensures LeadingSpaces(s) + |r| <= |s|
    ensures r == s[LeadingSpaces(s)..LeadingSpaces(s) + |r|]
    ensures forall k :: 0 <= k < LeadingSpaces(s) ==> IsSpace(s[k])
    ensures forall k :: LeadingSpaces(s) + |r| <= k < |s| ==> IsSpace(s[k])
    ensures |r| > 0 ==> !IsSpace(r[0]) && !IsSpace(r[|r| - 1])
  {
    var a, b := LeadingSpaces(s), TrailingStart(s);
    if a == |s| then "" else s[a..b]
  }

  /** `s.rstrip(c)` for a single character `c`. */
  function RStripChar(s: string, c: char): (r: string)
    ensures |r| <= |s| && r == s[..|r|]
    ensures |r| > 0 ==> r[|r| - 1] != c
    ensures forall k :: |r| <= k < |s| ==> s[k] == c
  {
    if |s| > 0 && s[|s| - 1] == c then RStripChar(s[..|s| - 1], c) else s
  }

  function LowerChar(c: char): char {
    if 'A' <= c <= 'Z' then (c as int - 'A' as int + 'a' as int) as char else c
  }

  /** `s.lower()` on ASCII letters. */
  function Lower(s: string): (r: string)
    ensures |r| == |s|
    ensures forall k :: 0 <= k < |s| ==> r[k] == LowerChar(s[k])
  {
    seq(|s|, k requires 0 <= k < |s| => LowerChar(s[k]))
  }

  /** Splits off an optional sign: whether it was `-`, and the rest. */
  function SignAndRest(t: string): (bool, string) {
    if |t| > 0 && t[0] == '-' then (true, t[1..])
    else if |t| > 0 && t[0] == '+' then (false, t[1..])
    else (false, t)
  }

  predicate IsDigit(c: char) { '0' <= c <= '9' }

  function DigitValue(c: char): (d: nat)
    requires IsDigit(c)
    ensures d < 10
  {
    c as int - '0' as int
  }

  /** `s.isdigit()` for ASCII: non-empty and every character a digit. */
  predicate IsDigits(s: string) {
    |s| > 0 && forall k :: 0 <= k < |s| ==> IsDigit(s[k])
  }

  /** The value of a string of decimal digits, most significant first. */
  function DigitsValue(s: string): nat
    requires forall k :: 0 <= k < |s| ==> IsDigit(s[k])
  {
    if |s| == 0 then 0
    else DigitsValue(s[..|s| - 1]) * 10 + DigitValue(s[|s| - 1])
  }

  function DigitChar(d: nat): char
    requires d < 10
  {
    ('0' as int + d) as char
  }

  /** `str(n)` for a natural number: decimal digits whose value is `n`. */
  function NatToString(n: nat): (s: string)
    ensures IsDigits(s)
    ensures DigitsValue(s) == n
  {
    if n < 10 then [DigitChar(n)]
    else
      var s := NatToString(n / 10) + [DigitChar(n % 10)];
      assert s[..|s| - 1] == NatToString(n / 10);
      s
  }
}
