/** Python's substring search, `str.split(sep)`, `sep.join` and single-character
    `str.replace`, over strings as `seq<char>`. */
module Text {
  import opened Results

  /** `pat` occurs in `s` starting at index `i`. */
  predicate OccursAt(s: string, pat: string, i: nat) {
    i + |pat| <= |s| && s[i..i + |pat|] == pat
  }

  /** `pat` occurs somewhere in `s`. */
  ghost predicate Contains(s: string, pat: string) {
    exists i: nat :: OccursAt(s, pat, i)
  }

  /** `s` is a suffix of `t`. */
  predicate IsSuffix(s: string, t: string) {
    |s| <= |t| && t[|t| - |s|..] == s
  }

  /** An occurrence inside the prefix `s[..n]` is an occurrence in `s` that ends by `n`. */
  lemma OccursInPrefix(s: string, pat: string, n: nat)
    requires n <= |s|
    ensures forall j: nat :: OccursAt(s[..n], pat, j) ==> j + |pat| <= n && OccursAt(s, pat, j)
  {
    forall j: nat | OccursAt(s[..n], pat, j)
      ensures j + |pat| <= n && OccursAt(s, pat, j)
    {
      assert s[..n][j..j + |pat|] == s[j..j + |pat|];
    }
  }

  /** An occurrence inside the suffix `s[m..]` is an occurrence in `s`, shifted by `m`. */
  lemma OccursInSuffix(s: string, pat: string, m: nat)
    requires m <= |s|
    ensures forall j: nat :: OccursAt(s[m..], pat, j) <==> OccursAt(s, pat, m + j)
  {
    forall j: nat
      ensures OccursAt(s[m..], pat, j) <==> OccursAt(s, pat, m + j)
    {
      if m + j + |pat| <= |s| {
        assert s[m..][j..j + |pat|] == s[m + j..m + j + |pat|];
      }
    }
  }

  /** The index of the leftmost occurrence of `pat` in `s` at or after `k`. */
  function FindFrom(s: string, pat: string, k: nat): (r: Option<nat>)
    ensures r.Some? ==> k <= r.value && OccursAt(s, pat, r.value)
    ensures r.Some? ==> forall j: nat :: k <= j < r.value ==> !OccursAt(s, pat, j)
    ensures r.None? ==> forall j: nat :: k <= j ==> !OccursAt(s, pat, j)
    decreases |s| - k
  {
    if |s| < k + |pat| then None
    else if OccursAt(s, pat, k) then Some(k)
    else FindFrom(s, pat, k + 1)
  }

  /** The index of the leftmost occurrence of `pat` in `s` (Python's `str.find`,
      with `None` for -1). */
  function Find(s: string, pat: string): (r: Option<nat>)
    ensures r.Some? ==> OccursAt(s, pat, r.value)
    ensures r.Some? ==> forall j: nat :: j < r.value ==> !OccursAt(s, pat, j)
    ensures r.None? ==> forall j: nat :: !OccursAt(s, pat, j)
  {
    FindFrom(s, pat, 0)
  }

  /** Python's `s.split(sep)`: the pieces between the non-overlapping
      occurrences of `sep`, found left to right. */
  function Split(s: string, sep: string): (r: seq<string>)
    requires |sep| > 0
    ensures |r| >= 1
    ensures forall k {:trigger Contains(r[k], sep)} :: 0 <= k < |r| ==> !Contains(r[k], sep)
    decreases |s|
  {
    match Find(s, sep)
    case None => [s]
    case Some(i) =>
      OccursInPrefix(s, sep, i);
      [s[..i]] + Split(s[i + |sep|..], sep)
  }

  /** Python's `sep.join(pieces)`. */
  function Join(pieces: seq<string>, sep: string): string {
    if |pieces| == 0 then []
    else if |pieces| == 1 then pieces[0]
    else pieces[0] + sep + Join(pieces[1..], sep)
  }

  /** Joining a piece in front of at least one more puts a separator between them. */
  lemma JoinCons(head: string, tail: seq<string>, sep: string)
    requires |tail| > 0
    ensures Join([head] + tail, sep) == head + sep + Join(tail, sep)
  {
    assert ([head] + tail)[1..] == tail;
  }

  /** Past an occurrence of `sep`, `split` carries on in the rest of the string. */
  lemma SplitUnfold(s: string, sep: string, i: nat)
    requires |sep| > 0 && Find(s, sep) == Some(i)
    ensures i + |sep| <= |s|
    ensures Split(s, sep) == [s[..i]] + Split(s[i + |sep|..], sep)
  {
  }

  /** Splitting and joining again gives back the original string. */
  lemma {:induction false} SplitJoin(s: string, sep: string)
    requires |sep| > 0
    ensures Join(Split(s, sep), sep) == s
    decreases |s|
  {
    match Find(s, sep)
    case None =>
    case Some(i) =>
      SplitUnfold(s, sep, i);
      var rest := s[i + |sep|..];
      SplitJoin(rest, sep);
      JoinCons(s[..i], Split(rest, sep), sep);
      assert s == s[..i] + sep + rest;
  }

  /** A string splits into one piece exactly when the separator does not occur in it. */
  lemma SplitSingle(s: string, sep: string)
    requires |sep| > 0
    ensures |Split(s, sep)| == 1 <==> !Contains(s, sep)
  {
    match Find(s, sep)
    case None =>
    case Some(i) =>
  }

  /** `s.split(sep)[0]`: the text before the first occurrence of `sep`. */
  function First(s: string, sep: string): (r: string)
    requires |sep| > 0
    ensures r <= s
    ensures !Contains(r, sep)
    ensures |r| == |s| <==> !Contains(s, sep)
    ensures |r| < |s| ==> OccursAt(s, sep, |r|)
  {
    Split(s, sep)[0]
  }

  /** The text before the first occurrence is unique: any prefix free of `sep`
      that reaches either the end of `s` or an occurrence of `sep` is it. */
  lemma FirstUnique(s: string, sep: string, p: string)
    requires |sep| > 0
    requires p <= s
    requires forall j: nat :: j < |p| ==> !OccursAt(s, sep, j)
    requires |p| == |s| || OccursAt(s, sep, |p|)
    ensures First(s, sep) == p
  {
  }

  /** An occurrence with none before it is the one `Find` reports. */
  lemma FindLeftmost(s: string, pat: string, i: nat)
    requires OccursAt(s, pat, i)
    requires forall j: nat :: j < i ==> !OccursAt(s, pat, j)
    ensures Find(s, pat) == Some(i)
  {
  }

  /** A pattern cannot start where its first character is absent. */
  lemma NoOccurrenceBefore(s: string, pat: string, n: nat)
    requires |pat| > 0 && n <= |s|
    requires forall j :: 0 <= j < n ==> s[j] != pat[0]
    ensures forall j: nat :: j < n ==> !OccursAt(s, pat, j)
  {
    forall j: nat | j < n
      ensures !OccursAt(s, pat, j)
    {
      if j + |pat| <= |s| {
        assert s[j..j + |pat|][0] == s[j];
      }
    }
  }

  /** Splitting `a + sep + b` where the first occurrence of `sep` is the one
      after `a` gives `a` followed by the pieces of `b`. */
  lemma SplitAtFirst(a: string, sep: string, b: string)
    requires |sep| > 0
    requires forall j: nat :: j < |a| ==> !OccursAt(a + sep + b, sep, j)
    ensures Split(a + sep + b, sep) == [a] + Split(b, sep)
  {
    var s := a + sep + b;
    assert s[|a|..|a| + |sep|] == sep;
    FindLeftmost(s, sep, |a|);
    assert s[..|a|] == a;
    assert s[|a| + |sep|..] == b;
  }

  /** A suffix of `b` is a suffix of `a + b`. */
  lemma SuffixAppend(a: string, b: string, r: string)
    requires IsSuffix(r, b)
    ensures IsSuffix(r, a + b)
  {
    assert (a + b)[|a + b| - |r|..] == b[|b| - |r|..];
  }

  /** An occurrence in `b` at `k` is an occurrence in `a + b` at `|a| + k`. */
  lemma OccursAppend(a: string, b: string, pat: string, k: nat)
    requires OccursAt(b, pat, k)
    ensures OccursAt(a + b, pat, |a| + k)
  {
    assert (a + b)[|a| + k..|a| + k + |pat|] == b[k..k + |pat|];
  }

  /** The last of several joined pieces ends the joined string, right after a separator. */
  lemma {:induction false} JoinLast(pieces: seq<string>, sep: string)
    requires |pieces| > 0
    ensures var j := Join(pieces, sep); var r := pieces[|pieces| - 1];
            IsSuffix(r, j) && (|pieces| > 1 ==> |r| + |sep| <= |j| && OccursAt(j, sep, |j| - |r| - |sep|))
    decreases |pieces|
  {
    if |pieces| > 1 {
      var rest := pieces[1..];
      var r := rest[|rest| - 1];
      var jr := Join(rest, sep);
      assert pieces[|pieces| - 1] == r;
      JoinLast(rest, sep);
      SuffixAppend(pieces[0] + sep, jr, r);
      if |rest| > 1 {
        OccursAppend(pieces[0] + sep, jr, sep, |jr| - |r| - |sep|);
      } else {
        assert (pieces[0] + sep + jr)[|pieces[0]|..|pieces[0]| + |sep|] == sep;
      }
    }
  }

  /** Python's `s.split(c)[-1]` for a one-character separator: the text after
      the last `c`, or all of `s` when it holds none (`LastIsSplitLast` ties it to `Split`). */
  function Last(s: string, c: char): (r: string)
    ensures IsSuffix(r, s)
    ensures c !in r
    ensures |r| == |s| <==> c !in s
    ensures |r| < |s| ==> s[|s| - |r| - 1] == c
    decreases |s|
  {
    if |s| == 0 || s[|s| - 1] == c then []
    else
      var init := s[..|s| - 1];
      assert s == init + [s[|s| - 1]];
      Last(init, c) + [s[|s| - 1]]
  }

  /** A one-character pattern occurs exactly where that character is. */
  lemma ContainsChar(s: string, c: char)
    ensures Contains(s, [c]) <==> c in s
  {
    if c in s {
      var i :| 0 <= i < |s| && s[i] == c;
      assert OccursAt(s, [c], i);
    }
    if Contains(s, [c]) {
      var i: nat :| OccursAt(s, [c], i);
      assert s[i..i + 1] == [c];
      assert s[i] == c;
    }
  }

  lemma OccursSingle(s: string, c: char)
    ensures forall i: nat :: OccursAt(s, [c], i) <==> i < |s| && s[i] == c
  {
    forall i: nat | i < |s|
      ensures OccursAt(s, [c], i) <==> s[i] == c
    {
      assert s[i..i + 1] == [s[i]];
    }
  }

  lemma SuffixMembers(s: string, x: string)
    requires IsSuffix(x, s)
    ensures forall k :: |s| - |x| <= k < |s| ==> s[k] in x
  {
    forall k | |s| - |x| <= k < |s|
      ensures s[k] in x
    {
      assert x[k - (|s| - |x|)] == s[k];
    }
  }

  /** The text after the last `c` is unique: any suffix free of `c` that is the
      whole string or follows a `c` is it. */
  lemma LastCharUnique(s: string, c: char, t: string)
    requires IsSuffix(t, s)
    requires c !in t
    requires |t| == |s| || s[|s| - |t| - 1] == c
    ensures Last(s, c) == t
  {
    var r := Last(s, c);
    SuffixMembers(s, r);
    SuffixMembers(s, t);
  }

  /** The last of pieces joined by `c`, when it holds no `c`, is the text after the last `c`. */
  lemma LastOfJoin(s: string, c: char, p: seq<string>)
    requires |p| > 0 && Join(p, [c]) == s
    requires !Contains(p[|p| - 1], [c])
    ensures Last(s, c) == p[|p| - 1]
  {
    var t := p[|p| - 1];
    JoinLast(p, [c]);
    ContainsChar(t, c);
    if |p| > 1 {
      OccursSingle(s, c);
    }
    LastCharUnique(s, c, t);
  }

  /** `Last` is the last piece of `split`. */
  lemma LastIsSplitLast(s: string, c: char)
    ensures var p := Split(s, [c]); Last(s, c) == p[|p| - 1]
  {
    var p := Split(s, [c]);
    assert |p| > 0 && !Contains(p[|p| - 1], [c]);
    SplitJoin(s, [c]);
    LastOfJoin(s, c, p);
  }

  /** Python's `s.replace(c, t)` for a single character `c`: every `c` becomes `t`. */
  function ReplaceChar(s: string, c: char, t: string): (r: string)
    ensures c !in s ==> r == s
    ensures c !in t ==> c !in r
    ensures forall x :: x != c && x !in t ==> multiset(r)[x] == multiset(s)[x]
    decreases |s|
  {
    if |s| == 0 then []
    else
      assert s == [s[0]] + s[1..];
      (if s[0] == c then t else [s[0]]) + ReplaceChar(s[1..], c, t)
  }

  /** Python's identity `s.replace(c, t) == t.join(s.split(c))`: the replacement
      goes exactly where the separators were, and the other characters keep their order. */
  lemma ReplaceCharSplitJoin(s: string, c: char, t: string)
    ensures ReplaceChar(s, c, t) == Join(Split(s, [c]), t)
  {
    var pieces := Split(s, [c]);
    SplitJoin(s, [c]);
    forall k | 0 <= k < |pieces|
      ensures c !in pieces[k]
    {
      ContainsChar(pieces[k], c);
    }
    ReplaceJoin(pieces, c, t);
  }

  /** Replacing `c` in pieces joined by `c`, none of which holds `c`, joins them by `t`. */
  lemma {:induction false} ReplaceJoin(pieces: seq<string>, c: char, t: string)
    requires forall k :: 0 <= k < |pieces| ==> c !in pieces[k]
    ensures ReplaceChar(Join(pieces, [c]), c, t) == Join(pieces, t)
    decreases |pieces|
  {
    if |pieces| == 1 {
      assert c !in pieces[0];
    } else if |pieces| > 1 {
      var head, rest := pieces[0], pieces[1..];
      assert c !in head;
      ReplaceJoin(rest, c, t);
      ReplaceCharAppend(head + [c], Join(rest, [c]), c, t);
      ReplaceCharAppend(head, [c], c, t);
      assert ReplaceChar([c], c, t) == t + [] == t;
    }
  }

  /** Replacement works piece by piece over a concatenation. */
  lemma {:induction false} ReplaceCharAppend(a: string, b: string, c: char, t: string)
    ensures ReplaceChar(a + b, c, t) == ReplaceChar(a, c, t) + ReplaceChar(b, c, t)
    decreases |a|
  {
    if |a| > 0 {
      assert (a + b)[1..] == a[1..] + b;
      ReplaceCharAppend(a[1..], b, c, t);
    } else {
      assert a + b == b;
    }
  }
}
