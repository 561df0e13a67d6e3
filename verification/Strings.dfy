/**
 * The string routines the driver and the shell decide names with: comparison, overlapping copy, and
 * the in-place tokeniser.
 */
module Strings {
  import opened Machine
  import opened Layout

  const SPACE: byte := 0x20

  // The position of the first c; the length when there is none.
  function Index(s: seq<byte>, c: byte): (n: nat)
    ensures n <= |s| && c !in s[..n]
    ensures n < |s| ==> s[n] == c
  {
    if s == [] || s[0] == c then 0 else 1 + Index(s[1..], c)
  }

  // The C string that starts a run of memory.
  function CString(s: seq<byte>): seq<byte> {
    s[..Index(s, 0)]
  }

  // The sign of the first difference.
  function Compare(s: seq<byte>, t: seq<byte>): int
    requires |s| == |t|
  {
    if s == [] then 0 else if s[0] < t[0] then -1 else if s[0] > t[0] then 1 else Compare(s[1..], t[1..])
  }

  lemma {:induction false} CompareEqual(s: seq<byte>, t: seq<byte>)
    requires |s| == |t|
    ensures Compare(s, t) == 0 <==> s == t
    ensures Compare(t, s) == -Compare(s, t)
  {
    if s != [] {
      CompareEqual(s[1..], t[1..]);
      assert s == [s[0]] + s[1..] && t == [t[0]] + t[1..];
    }
  }

  // s and t first differ at k, where s is smaller.
  ghost predicate LessAt(s: seq<byte>, t: seq<byte>, k: nat) {
    k < |s| && k < |t| && s[..k] == t[..k] && s[k] < t[k]
  }

  lemma LessTail(s: seq<byte>, t: seq<byte>, k: nat)
    requires s != [] && t != []
    ensures LessAt(s, t, k + 1) <==> s[0] == t[0] && LessAt(s[1..], t[1..], k)
    ensures LessAt(s, t, 0) <==> s[0] < t[0]
  {
    if LessAt(s, t, k + 1) {
      assert s[..k + 1][0] == t[..k + 1][0] && s[1..][..k] == s[..k + 1][1..] && t[1..][..k] == t[..k + 1][1..];
    }
    if k < |s| - 1 && k < |t| - 1 && s[0] == t[0] && s[1..][..k] == t[1..][..k] {
      assert s[..k + 1] == [s[0]] + s[1..][..k] && t[..k + 1] == [t[0]] + t[1..][..k];
    }
  }

  // The comparison is the sign of the first difference.
  lemma {:induction false} CompareSign(s: seq<byte>, t: seq<byte>, k: nat)
    requires |s| == |t|
    ensures LessAt(s, t, k) ==> Compare(s, t) == -1
    ensures LessAt(t, s, k) ==> Compare(s, t) == 1
    ensures Compare(s, t) in {-1, 0, 1}
  {
    hide LessAt;
    if s == [] {
      assert !LessAt(s, t, k) && !LessAt(t, s, k) by {
        NoLess(s, t, k);
      }
    } else {
      LessTail(s, t, if k == 0 then 0 else k - 1);
      LessTail(t, s, if k == 0 then 0 else k - 1);
      CompareSign(s[1..], t[1..], if k == 0 then 0 else k - 1);
    }
  }

  lemma NoLess(s: seq<byte>, t: seq<byte>, k: nat)
    requires s == [] && t == []
    ensures !LessAt(s, t, k) && !LessAt(t, s, k)
  {
  }

  method Memcmp(s1: seq<byte>, s2: seq<byte>, n: nat) returns (r: int)
    requires n <= |s1| && n <= |s2|
    ensures r == Compare(s1[..n], s2[..n])
    ensures r == 0 <==> s1[..n] == s2[..n]
  {
    CompareEqual(s1[..n], s2[..n]);
    for i := 0 to n
      invariant Compare(s1[..n], s2[..n]) == Compare(s1[i..n], s2[i..n])
    {
      assert s1[i..n][1..] == s1[i + 1..n] && s2[i..n][1..] == s2[i + 1..n];
      if s1[i] < s2[i] {
        return -1;
      } else if s1[i] > s2[i] {
        return 1;
      }
    }
    return 0;
  }

  // Returns 1, not 0, when the strings are equal.
  method Strcmp(s1: seq<byte>, s2: seq<byte>) returns (r: int)
    requires 0 in s1 && 0 in s2
    ensures r == if CString(s1) == CString(s2) then 1 else 0
  {
    var i := 0;
    IndexIn(s1, 0);
    IndexIn(s2, 0);
    while s1[i] != 0 && s1[i] == s2[i]
      invariant i <= Index(s1, 0) && i <= Index(s2, 0)
      invariant s1[..i] == s2[..i]
      decreases |s1| - i
    {
      i := i + 1;
    }
    if s1[i] == 0 && s2[i] == 0 {
      assert i == Index(s1, 0) && i == Index(s2, 0);
      return 1;
    }
    return 0;
  }

  lemma {:induction false} IndexIn(s: seq<byte>, c: byte)
    ensures Index(s, c) < |s| <==> c in s
  {
    if s != [] && s[0] != c {
      IndexIn(s[1..], c);
      assert s == [s[0]] + s[1..];
    }
  }

  // Copies towards lower addresses front to back and towards higher ones back to front.
  method Memmove(a: array<byte>, dest: nat, src: nat, n: nat)
    requires dest + n <= a.Length && src + n <= a.Length
    modifies a
    ensures a[dest..dest + n] == old(a[src..src + n])
    ensures a[..dest] == old(a[..dest]) && a[dest + n..] == old(a[dest + n..])
  {
    if dest < src {
      MoveDown(a, dest, src, n);
    } else {
      MoveUp(a, dest, src, n);
    }
  }

  method MoveDown(a: array<byte>, dest: nat, src: nat, n: nat)
    requires dest < src && src + n <= a.Length
    modifies a
    ensures forall k :: 0 <= k < a.Length ==>
      a[k] == if dest <= k < dest + n then old(a[src + k - dest]) else old(a[k])
  {
    for i := 0 to n
      invariant forall k :: 0 <= k < a.Length ==>
        a[k] == if dest <= k < dest + i then old(a[src + k - dest]) else old(a[k])
    {
      a[dest + i] := a[src + i];
    }
  }

  method MoveUp(a: array<byte>, dest: nat, src: nat, n: nat)
    requires src <= dest && dest + n <= a.Length
    modifies a
    ensures forall k :: 0 <= k < a.Length ==>
      a[k] == if dest <= k < dest + n then old(a[src + k - dest]) else old(a[k])
  {
    for i := n downto 0
      invariant forall k :: 0 <= k < a.Length ==>
        a[k] == if dest + i <= k < dest + n then old(a[src + k - dest]) else old(a[k])
    {
      a[dest + i] := a[src + i];
    }
  }

  // Tokens: what remains between spaces, empty ones included.

  function Split(s: seq<byte>): (tokens: seq<seq<byte>>)
    ensures tokens != []
  {
    var n := Index(s, SPACE);
    if n == |s| then [s] else [s[..n]] + Split(s[n + 1..])
  }

  function JoinSpaces(tokens: seq<seq<byte>>): seq<byte>
    requires tokens != []
  {
    if |tokens| == 1 then tokens[0] else tokens[0] + [SPACE] + JoinSpaces(tokens[1..])
  }

  // The split is the only one: its tokens hold no space, and joined by spaces they give the string back.
  lemma {:induction false} SplitJoins(s: seq<byte>)
    ensures JoinSpaces(Split(s)) == s
    ensures forall t :: t in Split(s) ==> 0x20 !in t
    decreases |s|
  {
    hide Split, Index;
    var n := Index(s, SPACE);
    SplitStep(s, 0);
    if n < |s| {
      SplitJoins(s[n + 1..]);
      assert s == s[..n] + [SPACE] + s[n + 1..];
      assert Split(s)[1..] == Split(s[n + 1..]);
    }
  }

  // Where the idx-th token starts.
  function TokenStart(s: seq<byte>, idx: nat): (p: Option<nat>)
    ensures p.Some? ==> p.value <= |s|
    decreases idx
  {
    if idx == 0 then Some(0)
    else
      var n := Index(s, SPACE);
      if n == |s| then None
      else
        match TokenStart(s[n + 1..], idx - 1)
        case Some(p) => Some(n + 1 + p)
        case None => None
  }

  // The token that starts at p.
  function TokenFrom(s: seq<byte>, p: nat): seq<byte>
    requires p <= |s|
  {
    s[p..][..Index(s[p..], SPACE)]
  }

  lemma TokenShift(s: seq<byte>, n: nat, p: nat)
    requires n + p <= |s|
    ensures TokenFrom(s, n + p) == TokenFrom(s[n..], p)
  {
    assert s[n + p..] == s[n..][p..];
  }

  // One step of Split and of TokenStart.
  lemma SplitStep(s: seq<byte>, idx: nat)
    ensures var n := Index(s, SPACE);
      if n == |s| then Split(s) == [s] else Split(s) == [s[..n]] + Split(s[n + 1..])
    ensures TokenStart(s, 0) == Some(0) && TokenFrom(s, 0) == Split(s)[0]
    ensures var n := Index(s, SPACE);
      if n == |s| then TokenStart(s, idx + 1) == None
      else TokenStart(s, idx + 1) == match TokenStart(s[n + 1..], idx) case Some(p) => Some(n + 1 + p) case None => None
  {
    SplitUnfolds(s);
    StartUnfolds(s, idx);
    hide *;
  }

  lemma SplitUnfolds(s: seq<byte>)
    ensures var n := Index(s, SPACE);
      if n == |s| then Split(s) == [s] else Split(s) == [s[..n]] + Split(s[n + 1..])
    ensures TokenStart(s, 0) == Some(0) && TokenFrom(s, 0) == Split(s)[0]
  {
    hide Index;
    assert s[0..] == s;
  }

  lemma StartUnfolds(s: seq<byte>, idx: nat)
    ensures var n := Index(s, SPACE);
      if n == |s| then TokenStart(s, idx + 1) == None
      else TokenStart(s, idx + 1) == match TokenStart(s[n + 1..], idx) case Some(p) => Some(n + 1 + p) case None => None
  {
    hide Index, Split;
  }

  lemma {:induction false} TokenOfSplit(s: seq<byte>, idx: nat)
    ensures TokenStart(s, idx) == None <==> |Split(s)| <= idx
    ensures TokenStart(s, idx).Some? ==> TokenFrom(s, TokenStart(s, idx).value) == Split(s)[idx]
    decreases idx
  {
    hide Split, TokenStart, Index, TokenFrom;
    if idx == 0 {
      SplitStep(s, 0);
    } else {
      var n := Index(s, SPACE);
      SplitStep(s, idx - 1);
      if n < |s| {
        TokenOfSplit(s[n + 1..], idx - 1);
        if TokenStart(s[n + 1..], idx - 1).Some? {
          TokenShift(s, n + 1, TokenStart(s[n + 1..], idx - 1).value);
        }
      }
    }
  }

  // Memory m holds the C string text at offset base.
  ghost predicate Holds(m: seq<byte>, base: nat, text: seq<byte>) {
    base + |text| < |m| && m[base + |text|] == 0 && m[base..base + |text|] == text && 0 !in text
  }

  // Every terminated buffer holds exactly one string at each offset before its terminator.
  lemma HoldsCString(m: seq<byte>, base: nat, text: seq<byte>)
    requires base <= |m| && 0 in m[base..]
    ensures Holds(m, base, text) <==> text == CString(m[base..])
  {
    IndexIn(m[base..], 0);
    var n := Index(m[base..], 0);
    assert m[base..][..n] == m[base..base + n];
    if Holds(m, base, text) {
      assert m[base..][..|text|] == text;
    }
  }

  // Advances over everything that is neither a space nor the terminator.
  method SkipToken(a: array<byte>, base: nat, o: nat, ghost text: seq<byte>) returns (n: nat)
    requires Holds(a[..], base, text) && o <= |text|
    ensures n == o + Index(text[o..], SPACE) <= |text| && base + n < a.Length
    ensures a[base + n] == if n < |text| then SPACE else 0
  {
    n := o;
    while a[base + n] != SPACE && a[base + n] != 0
      invariant o <= n <= |text|
      invariant o + Index(text[o..], SPACE) == n + Index(text[n..], SPACE)
      decreases |text| - n
    {
      assert a[..][base..base + |text|][n] == a[base + n];
      assert text[n..][1..] == text[n + 1..];
      n := n + 1;
    }
    assert n < |text| ==> a[..][base..base + |text|][n] == a[base + n];
  }

  // Returns the offset of the idx-th token of the string at base and cuts the buffer behind it, or
  // returns nothing and leaves the buffer alone.
  method GetString(a: array<byte>, base: nat, idx: byte) returns (r: Option<nat>)
    requires base <= a.Length && 0 in a[base..]
    modifies a
    ensures r == None <==> |Split(CString(old(a[base..])))| <= idx
    ensures r == None ==> a[..] == old(a[..])
    ensures r.Some? ==>
      var text := CString(old(a[base..]));
      var token := Split(text)[idx];
      var end := r.value + |token|;
      && base <= r.value && end <= base + |text| < a.Length && CString(a[r.value..]) == token
      && forall k :: 0 <= k < a.Length ==> a[k] == if end <= k < base + |text| then 0 else old(a[k])
  {
    ghost var text := CString(a[base..]);
    assert a[..][base..] == a[base..];
    HoldsCString(a[..], base, text);
    HoldsText(a[..], base, text);
    hide Split, Index, CString, Holds;
    r := CutToken(a, base, idx, text);
    if r.Some? {
      HoldsText(a[..], r.value, Split(text)[idx]);
      assert a[..][r.value..] == a[r.value..];
    }
  }

  // The same for a buffer that holds the text.
  method CutToken(a: array<byte>, base: nat, idx: byte, ghost text: seq<byte>) returns (r: Option<nat>)
    requires Holds(a[..], base, text)
    modifies a
    ensures r == None <==> |Split(text)| <= idx
    ensures r == None ==> a[..] == old(a[..])
    ensures r.Some? ==>
      && base <= r.value && Holds(a[..], r.value, Split(text)[idx])
      && var end := r.value + |Split(text)[idx]|;
         && end <= base + |text|
         && forall k :: 0 <= k < a.Length ==> a[k] == if end <= k < base + |text| then 0 else old(a[k])
  {
    TokenOfSplit(text, idx);
    hide Split, TokenStart, Index, Holds, TokenFrom;
    var found, o := LocateToken(a, base, idx, text);
    if !found {
      return None;
    }
    CutBehind(a, base, o, text);
    return Some(base + o);
  }

  lemma HoldsText(m: seq<byte>, base: nat, text: seq<byte>)
    requires Holds(m, base, text)
    ensures CString(m[base..]) == text && base + |text| < |m|
  {
    assert m[base..][|text|] == 0;
    HoldsCString(m, base, text);
  }

  lemma HoldsBytes(m: seq<byte>, base: nat, text: seq<byte>)
    requires Holds(m, base, text)
    ensures forall k :: base <= k < base + |text| ==> m[k] == text[k - base] != 0
  {
    forall k | base <= k < base + |text| ensures m[k] == text[k - base] != 0 {
      assert m[base..base + |text|][k - base] == m[k];
    }
  }

  // Ends the string at the end of the token that starts at offset o.
  method CutBehind(a: array<byte>, base: nat, o: nat, ghost text: seq<byte>)
    requires Holds(a[..], base, text) && o <= |text|
    modifies a
    ensures Holds(a[..], base + o, TokenFrom(text, o))
    ensures var end := base + o + |TokenFrom(text, o)|;
      && end <= base + |text|
      && forall k :: 0 <= k < a.Length ==> a[k] == if end <= k < base + |text| then 0 else old(a[k])
  {
    ghost var m := a[..];
    var n := SkipToken(a, base, o, text);
    HoldsBytes(m, base, text);
    CutRest(a, base + n, base + |text|);
    CutHolds(m, a[..], base, text, o, n);
  }

  lemma CutHolds(m: seq<byte>, m': seq<byte>, base: nat, text: seq<byte>, o: nat, n: nat)
    requires Holds(m, base, text) && o <= n <= |text| && n == o + Index(text[o..], SPACE) && |m'| == |m|
    requires forall k :: 0 <= k < |m| ==> m'[k] == if base + n <= k < base + |text| then 0 else m[k]
    ensures Holds(m', base + o, TokenFrom(text, o)) && |TokenFrom(text, o)| == n - o
  {
    hide Index;
    assert TokenFrom(text, o) == text[o..n];
    HoldsBytes(m, base, text);
    assert m'[base + o..base + n] == text[o..n];
  }

  // The idx-th token of the text is the n-th one from offset o.
  ghost predicate Remaining(text: seq<byte>, idx: nat, o: nat, n: nat) {
    o <= |text| && TokenStart(text, idx) == Shift(TokenStart(text[o..], n), o)
  }

  function Shift(p: Option<nat>, n: nat): Option<nat> {
    match p case Some(k) => Some(n + k) case None => None
  }

  lemma RemainingAll(text: seq<byte>, idx: nat)
    ensures Remaining(text, idx, 0, idx)
  {
    hide TokenStart;
    assert text[0..] == text;
  }

  lemma RemainingStep(text: seq<byte>, idx: nat, o: nat, n: nat)
    requires 0 < n && Remaining(text, idx, o, n)
    ensures var m := Index(text[o..], SPACE);
      if o + m == |text| then TokenStart(text, idx) == None else Remaining(text, idx, o + m + 1, n - 1)
  {
    hide TokenStart, Index, Split;
    SplitStep(text[o..], n - 1);
    var m := Index(text[o..], SPACE);
    if o + m < |text| {
      assert text[o..][m + 1..] == text[o + m + 1..];
    }
  }

  lemma RemainingDone(text: seq<byte>, idx: nat, o: nat)
    requires Remaining(text, idx, o, 0)
    ensures TokenStart(text, idx) == Some(o)
  {
    SplitStep(text[o..], 0);
  }

  // Steps over idx tokens and the single space behind each.
  method LocateToken(a: array<byte>, base: nat, idx: nat, ghost text: seq<byte>) returns (found: bool, o: nat)
    requires Holds(a[..], base, text)
    ensures TokenStart(text, idx) == if found then Some(o) else None
  {
    RemainingAll(text, idx);
    hide Holds, Remaining, TokenStart, Index;
    var n := idx;
    o := 0;
    while n > 0
      invariant o <= |text| && Remaining(text, idx, o, n)
    {
      RemainingStep(text, idx, o, n);
      var e := SkipToken(a, base, o, text);
      if a[base + e] == 0 {
        return false, o;
      }
      o, n := e + 1, n - 1;
    }
    RemainingDone(text, idx, o);
    found := true;
  }

  // Overwrites everything up to the terminator.
  method CutRest(a: array<byte>, start: nat, ghost stop: nat)
    requires start <= stop < a.Length && a[stop] == 0
    requires forall k :: start <= k < stop ==> a[k] != 0
    modifies a
    ensures forall k :: 0 <= k < a.Length ==> a[k] == if start <= k < stop then 0 else old(a[k])
  {
    var end := start;
    while a[end] != 0
      invariant start <= end <= stop
      invariant forall k :: end <= k < a.Length ==> a[k] == old(a[k])
      invariant forall k :: 0 <= k < start ==> a[k] == old(a[k])
      invariant forall k :: start <= k < end ==> a[k] == 0
      decreases stop - end
    {
      a[end] := 0;
      end := end + 1;
    }
  }

  // Names in directory entries: eight bytes, zero-padded, followed in memory by the extension.

  predicate ZeroPadded(s: seq<byte>) {
    forall i, j :: 0 <= i < j < |s| && s[i] == 0 ==> s[j] == 0
  }

  lemma PaddedCString(name: Name)
    requires ZeroPadded(name)
    ensures CString(name + NO_EXT) == name[..Index(name, 0)]
    ensures forall k :: Index(name, 0) <= k < 8 ==> name[k] == 0
  {
    var n := Index(name, 0);
    assert (name + NO_EXT)[..n] == name[..n];
    IndexIs(name + NO_EXT, 0, n);
  }

  lemma IndexIs(s: seq<byte>, c: byte, n: nat)
    requires n < |s| && c !in s[..n] && s[n] == c
    ensures Index(s, c) == n
  {
    var m := Index(s, c);
  }

  // On zero-padded names with a zero extension the shell's strcmp and the driver's memcmp agree.
  lemma ComparisonsAgree(a: Name, b: Name)
    requires ZeroPadded(a) && ZeroPadded(b)
    ensures CString(a + NO_EXT) == CString(b + NO_EXT) <==> Compare(a, b) == 0
    ensures Compare(a, b) == 0 <==> a == b
  {
    PaddedCString(a);
    PaddedCString(b);
    CompareEqual(a, b);
    if CString(a + NO_EXT) == CString(b + NO_EXT) {
      assert Index(a, 0) == Index(b, 0);
      forall k | 0 <= k < 8 ensures a[k] == b[k] {
        if k < Index(a, 0) {
          assert a[..Index(a, 0)][k] == b[..Index(b, 0)][k];
        }
      }
    }
  }
}
