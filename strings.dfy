/**
 * The parts of Go's `strings`, `path` and `sort` packages that the generator relies on,
 * written out on `seq<char>`.
 */
module Strings {
  import opened Wrappers

  // ---------------------------------------------------------------------------
  // Searching

  /** Index of the first occurrence of `c` in `s`. */
  function IndexOf(s: string, c: char): (i: nat)
    requires c in s
    ensures i < |s| && s[i] == c && c !in s[..i]
  {
    if s[0] == c then 0
    else
      var j := IndexOf(s[1..], c);
      assert s[..j + 1] == [s[0]] + s[1..][..j];
      j + 1
  }

  predicate OccursAt(s: string, pat: string, i: nat) {
    i + |pat| <= |s| && s[i..i + |pat|] == pat
  }

  function FindFrom(s: string, pat: string, k: nat): (r: Option<nat>)
    requires k <= |s|
    ensures r.Some? ==> k <= r.value && OccursAt(s, pat, r.value)
    ensures r.Some? ==> forall j :: k <= j < r.value ==> !OccursAt(s, pat, j)
    ensures r.None? ==> forall j :: k <= j <= |s| ==> !OccursAt(s, pat, j)
    decreases |s| - k
  {
    if OccursAt(s, pat, k) then Some(k)
    else if k == |s| then None
    else FindFrom(s, pat, k + 1)
  }

  /** The index of the first occurrence of `pat` in `s`, as `strings.Index` finds it. */
  function FindFirst(s: string, pat: string): (r: Option<nat>)
    ensures r.Some? ==> OccursAt(s, pat, r.value)
    ensures r.Some? ==> forall j :: 0 <= j < r.value ==> !OccursAt(s, pat, j)
    ensures r.None? ==> forall j :: 0 <= j <= |s| ==> !OccursAt(s, pat, j)
  {
    FindFrom(s, pat, 0)
  }

  predicate HasPrefix(s: string, prefix: string) {
    |prefix| <= |s| && s[..|prefix|] == prefix
  }

  predicate HasSuffix(s: string, suffix: string) {
    |suffix| <= |s| && s[|s| - |suffix|..] == suffix
  }

  // ---------------------------------------------------------------------------
  // Splitting and joining on one separator character

  /** `strings.Split(s, [c])`: the pieces between occurrences of `c`; never empty. */
  function Split(s: string, c: char): (parts: seq<string>)
    ensures |parts| >= 1
    decreases |s|
  {
    if c in s then
      var i := IndexOf(s, c);
      [s[..i]] + Split(s[i + 1..], c)
    else [s]
  }

  /** No piece of a split holds the separator. */
  lemma {:induction false} SplitPieces(s: string, c: char)
    ensures forall i :: 0 <= i < |Split(s, c)| ==> c !in Split(s, c)[i]
    decreases |s|
  {
    if c in s {
      var i := IndexOf(s, c);
      SplitPieces(s[i + 1..], c);
      assert Split(s, c) == [s[..i]] + Split(s[i + 1..], c);
    }
  }

  /** `strings.Join(parts, [c])`. */
  function Join(parts: seq<string>, c: char): string
    requires |parts| >= 1
  {
    if |parts| == 1 then parts[0] else parts[0] + [c] + Join(parts[1..], c)
  }

  /** The first piece of a split: the text before the first `c`, or all of `s`. */
  lemma SplitHead(s: string, c: char)
    ensures c in s ==> Split(s, c)[0] == s[..IndexOf(s, c)]
    ensures c !in s ==> Split(s, c)[0] == s
  {
  }

  /** `s` is its text before index `i`, the character there, and the text after. */
  lemma AroundIndex(s: string, i: nat)
    requires i < |s|
    ensures s[..i] + [s[i]] + s[i + 1..] == s
    ensures s[..i + 1] == s[..i] + [s[i]]
  {
  }

  lemma {:induction false} JoinSplit(s: string, c: char)
    ensures Join(Split(s, c), c) == s
    decreases |s|
  {
    if c in s {
      var i := IndexOf(s, c);
      JoinSplit(s[i + 1..], c);
      assert s == s[..i] + [c] + s[i + 1..];
    }
  }

  /** Splitting at a first `c` that follows a `c`-free piece yields that piece, then the rest's pieces. */
  lemma SplitCons(a: string, c: char, b: string)
    requires c !in a
    ensures Split(a + [c] + b, c) == [a] + Split(b, c)
  {
    var s := a + [c] + b;
    assert s[|a|] == c;
    var i := IndexOf(s, c);
    assert i == |a|;
    assert s[..i] == a;
    assert s[i + 1..] == b;
  }

  /** Joining one more piece appends the separator and that piece. */
  lemma {:induction false} JoinSnoc(parts: seq<string>, v: string, c: char)
    requires |parts| >= 1
    ensures Join(parts + [v], c) == Join(parts, c) + [c] + v
    decreases |parts|
  {
    if |parts| > 1 {
      assert (parts + [v])[1..] == parts[1..] + [v];
      JoinSnoc(parts[1..], v, c);
    }
  }

  lemma {:induction false} SplitJoin(parts: seq<string>, c: char)
    requires |parts| >= 1
    requires forall i :: 0 <= i < |parts| ==> c !in parts[i]
    ensures Split(Join(parts, c), c) == parts
  {
    if |parts| > 1 {
      var rest := Join(parts[1..], c);
      assert Join(parts, c) == parts[0] + [c] + rest;
      SplitCons(parts[0], c, rest);
      SplitJoin(parts[1..], c);
      assert parts == [parts[0]] + parts[1..];
    }
  }

  /** The first piece of a split is all of `s`, or is followed in `s` by a `c`. */
  lemma SplitHeadPrefix(s: string, c: char)
    ensures s == Split(s, c)[0] || HasPrefix(s, Split(s, c)[0] + [c])
  {
    SplitHead(s, c);
    if c in s {
      var i := IndexOf(s, c);
      assert (s[..i] + [c]) == s[..i + 1];
    }
  }

  /** With a `c` in `s` there are two pieces at least, the second heading the text after the first `c`. */
  lemma SplitSecond(s: string, c: char)
    requires c in s
    ensures |Split(s, c)| >= 2
    ensures s == Split(s, c)[0] + [c] + s[IndexOf(s, c) + 1..]
    ensures Split(s, c)[1] == Split(s[IndexOf(s, c) + 1..], c)[0]
  {
    var i := IndexOf(s, c);
    assert Split(s, c) == [s[..i]] + Split(s[i + 1..], c);
    AroundIndex(s, i);
  }

  /** A common front keeps a prefix a prefix. */
  lemma PrefixAfter(a: string, b: string, p: string)
    requires HasPrefix(b, p)
    ensures HasPrefix(a + b, a + p)
  {
    assert (a + b)[..|a + p|] == a + b[..|p|];
  }

  /** The first two pieces of a split, rejoined, are all of `s` or a prefix ending in another `c`. */
  lemma SplitFirstTwo(s: string, c: char)
    requires c in s
    ensures var p := Split(s, c);
      && |p| >= 2 && c !in p[0] && c !in p[1]
      && (s == p[0] + [c] + p[1] || HasPrefix(s, p[0] + [c] + p[1] + [c]))
  {
    var parts := Split(s, c);
    var rest := s[IndexOf(s, c) + 1..];
    SplitSecond(s, c);
    SplitPieces(s, c);
    SplitHeadPrefix(rest, c);
    if rest != parts[1] {
      PrefixAfter(parts[0] + [c], rest, parts[1] + [c]);
      assert parts[0] + [c] + (parts[1] + [c]) == parts[0] + [c] + parts[1] + [c];
    }
  }

  /** `strings.SplitN(s, [c], 2)`: splits at the first `c` only. */
  function SplitAtFirst(s: string, c: char): (parts: seq<string>)
    ensures 1 <= |parts| <= 2
    ensures |parts| == 2 <==> c in s
    ensures |parts| == 2 ==> c !in parts[0] && parts[0] + [c] + parts[1] == s
    ensures |parts| == 1 ==> parts[0] == s
  {
    if c in s then
      var i := IndexOf(s, c);
      assert s == s[..i] + [c] + s[i + 1..];
      [s[..i], s[i + 1..]]
    else [s]
  }

  // ---------------------------------------------------------------------------
  // Replacing

  /** `strings.Replace(s, pat, repl, 1)`: replaces the first occurrence of `pat`. */
  function ReplaceFirst(s: string, pat: string, repl: string): string {
    match FindFirst(s, pat)
    case None => s
    case Some(i) => s[..i] + repl + s[i + |pat|..]
  }

  /** When `s` starts with `pat`, that occurrence is the one replaced. */
  lemma ReplaceFirstPrefix(s: string, pat: string, repl: string)
    requires HasPrefix(s, pat)
    ensures ReplaceFirst(s, pat, repl) == repl + s[|pat|..]
  {
    assert OccursAt(s, pat, 0);
    assert FindFirst(s, pat) == Some(0);
  }

  /** A pattern longer than `s` does not occur, so nothing is replaced. */
  lemma ReplaceFirstTooLong(s: string, pat: string, repl: string)
    requires |pat| > |s|
    ensures ReplaceFirst(s, pat, repl) == s
  {
  }

  /** `strings.Replace(s, [from], [to], -1)` for one-character patterns. */
  function ReplaceAllChars(s: string, from: char, to: char): (r: string)
    ensures |r| == |s|
    ensures from != to ==> from !in r
    ensures forall i :: 0 <= i < |s| && s[i] != from ==> r[i] == s[i]
    ensures forall i :: 0 <= i < |s| && s[i] == from ==> r[i] == to
  {
    seq(|s|, i requires 0 <= i < |s| => if s[i] == from then to else s[i])
  }

  /** Replacing the one `from` between two pieces without it replaces just that separator. */
  lemma ReplaceAllCharsAround(a: string, b: string, from: char, to: char)
    requires from !in a && from !in b
    ensures ReplaceAllChars(a + [from] + b, from, to) == a + [to] + b
  {
    var s := a + [from] + b;
    var r := ReplaceAllChars(s, from, to);
    forall i | 0 <= i < |s| ensures r[i] == (a + [to] + b)[i] {
      if i < |a| {
        assert s[i] == a[i];
      } else if i > |a| {
        assert s[i] == b[i - |a| - 1];
      }
    }
  }

  // ---------------------------------------------------------------------------
  // Case and trimming

  predicate IsUpper(c: char) {
    'A' <= c <= 'Z'
  }

  function LowerChar(c: char): char {
    if IsUpper(c) then (c as int + 32) as char else c
  }

  /** `strings.ToLower`, on ASCII letters. */
  function ToLower(s: string): (r: string)
    ensures |r| == |s|
    ensures forall i :: 0 <= i < |r| ==> !IsUpper(r[i])
    ensures forall i :: 0 <= i < |s| && !IsUpper(s[i]) ==> r[i] == s[i]
    ensures forall i :: 0 <= i < |s| && IsUpper(s[i]) ==> r[i] as int == s[i] as int + 32
  {
    seq(|s|, i requires 0 <= i < |s| => LowerChar(s[i]))
  }

  predicate IsLower(s: string) {
    forall i :: 0 <= i < |s| ==> !IsUpper(s[i])
  }

  /** Lower-casing is the identity on text that is already lower case. */
  lemma ToLowerIdentity(s: string)
    requires IsLower(s)
    ensures ToLower(s) == s
  {
  }

  /** `strings.TrimRight(s, cutset)`: drops every trailing character that is in `cutset`. */
  function TrimRight(s: string, cutset: string): (r: string)
    ensures r <= s
    ensures forall i :: |r| <= i < |s| ==> s[i] in cutset
    ensures r == [] || r[|r| - 1] !in cutset
  {
    if |s| > 0 && s[|s| - 1] in cutset then TrimRight(s[..|s| - 1], cutset) else s
  }

  /** `strings.TrimSuffix(s, suffix)`. */
  function TrimSuffix(s: string, suffix: string): (r: string)
    ensures HasSuffix(s, suffix) ==> r + suffix == s
    ensures !HasSuffix(s, suffix) ==> r == s
  {
    if HasSuffix(s, suffix) then s[..|s| - |suffix|] else s
  }

  /** The characters `unicode.IsSpace` accepts. */
  predicate IsSpace(c: char) {
    var n := c as int;
    n == 0x20 || (0x09 <= n <= 0x0D) || n == 0x85 || n == 0xA0 || n == 0x1680
    || (0x2000 <= n <= 0x200A) || n == 0x2028 || n == 0x2029 || n == 0x202F
    || n == 0x205F || n == 0x3000
  }

  predicate IsBlank(s: string) {
    forall i :: 0 <= i < |s| ==> IsSpace(s[i])
  }

  function TrimLeftSpace(s: string): (r: string)
    ensures IsBlank(s) <==> r == []
  {
    if |s| > 0 && IsSpace(s[0]) then TrimLeftSpace(s[1..]) else s
  }

  function TrimRightSpace(s: string): (r: string)
    ensures IsBlank(s) <==> r == []
  {
    if |s| > 0 && IsSpace(s[|s| - 1]) then TrimRightSpace(s[..|s| - 1]) else s
  }

  /** `strings.TrimSpace`. Only whether its result is empty matters to the generator. */
  function TrimSpace(s: string): (r: string)
    ensures r == [] <==> IsBlank(s)
  {
    var left := TrimLeftSpace(s);
    assert IsBlank(s) <==> IsBlank(left) by {
      TrimLeftKeepsRest(s);
    }
    TrimRightSpace(left)
  }

  lemma {:induction false} TrimLeftKeepsRest(s: string)
    ensures IsBlank(s) <==> IsBlank(TrimLeftSpace(s))
  {
    if |s| > 0 && IsSpace(s[0]) {
      TrimLeftKeepsRest(s[1..]);
      assert IsBlank(s) <==> IsBlank(s[1..]) by {
        if IsBlank(s[1..]) {
          forall i | 0 <= i < |s| ensures IsSpace(s[i]) {
            if i > 0 { assert s[i] == s[1..][i - 1]; }
          }
        }
      }
    }
  }

  // ---------------------------------------------------------------------------
  // Numbers and paths

  predicate IsDigit(c: char) {
    '0' <= c <= '9'
  }

  predicate AllDigits(s: string) {
    forall i :: 0 <= i < |s| ==> IsDigit(s[i])
  }

  /** Whether `strconv.Atoi` accepts `s` (the 64-bit range check is left out). */
  predicate IsNum(s: string) {
    if |s| > 0 && (s[0] == '+' || s[0] == '-') then |s| > 1 && AllDigits(s[1..])
    else |s| > 0 && AllDigits(s)
  }

  /** The text after the last `/` of `s` (all of `s` when it has none). */
  function AfterLastSlash(s: string): (r: string)
    ensures '/' !in r
    ensures HasSuffix(s, r)
    ensures s != [] && s[|s| - 1] != '/' ==> r != []
    decreases |s|
  {
    if '/' in s then
      var i := IndexOf(s, '/');
      var r := AfterLastSlash(s[i + 1..]);
      assert s[|s| - |r|..] == s[i + 1..][|s[i + 1..]| - |r|..];
      r
    else s
  }

  /** `path.Base`: the last element of a slash-separated path. */
  function PathBase(p: string): (r: string)
    ensures r != []
    ensures '/' in r ==> r == "/"
  {
    if p == [] then "."
    else
      var stripped := TrimRight(p, "/");
      if stripped == [] then "/" else AfterLastSlash(stripped)
  }

  // ---------------------------------------------------------------------------
  // Lists of strings

  /** `appendIfUnique`: appends `x` unless it is already present. */
  function AppendIfUnique(s: seq<string>, x: string): (r: seq<string>)
    ensures (set y | y in r) == (set y | y in s) + {x}
    ensures NoDuplicates(s) ==> NoDuplicates(r)
  {
    if x in s then s else s + [x]
  }

  predicate NoDuplicates<T(==)>(s: seq<T>) {
    forall i, j :: 0 <= i < j < |s| ==> s[i] != s[j]
  }

  /** The byte-wise ordering `sort.Strings` uses (code-point order coincides with UTF-8 byte order). */
  predicate LexLe(a: string, b: string) {
    |a| == 0 || (|b| > 0 && (a[0] < b[0] || (a[0] == b[0] && LexLe(a[1..], b[1..]))))
  }

  lemma {:induction false} LexLeTotal(a: string, b: string)
    ensures LexLe(a, b) || LexLe(b, a)
  {
    if |a| > 0 && |b| > 0 && a[0] == b[0] {
      LexLeTotal(a[1..], b[1..]);
    }
  }

  lemma {:induction false} LexLeTransitive(a: string, b: string, c: string)
    requires LexLe(a, b) && LexLe(b, c)
    ensures LexLe(a, c)
  {
    if |a| > 0 && a[0] == b[0] && b[0] == c[0] {
      LexLeTransitive(a[1..], b[1..], c[1..]);
    }
  }

  lemma {:induction false} LexLeAntisymmetric(a: string, b: string)
    requires LexLe(a, b) && LexLe(b, a)
    ensures a == b
  {
    if |a| > 0 {
      LexLeAntisymmetric(a[1..], b[1..]);
      assert a == [a[0]] + a[1..] && b == [b[0]] + b[1..];
    }
  }

  predicate Sorted(s: seq<string>) {
    forall i, j :: 0 <= i < j < |s| ==> LexLe(s[i], s[j])
  }

  function Insert(x: string, s: seq<string>): (r: seq<string>)
    requires Sorted(s)
    ensures Sorted(r)
    ensures multiset(r) == multiset(s) + multiset{x}
  {
    if s == [] then [x]
    else if LexLe(x, s[0]) then
      InsertFront(x, s);
      [x] + s
    else
      var rest := Insert(x, s[1..]);
      InsertBehind(x, s, rest);
      [s[0]] + rest
  }

  /** A string below every element of a sorted list can go in front of it. */
  lemma ConsSorted(y: string, s: seq<string>)
    requires Sorted(s) && forall j :: 0 <= j < |s| ==> LexLe(y, s[j])
    ensures Sorted([y] + s)
  {
    forall i, j | 0 <= i < j < |[y] + s| ensures LexLe(([y] + s)[i], ([y] + s)[j]) {
      assert ([y] + s)[j] == s[j - 1];
      if i > 0 {
        assert ([y] + s)[i] == s[i - 1];
      }
    }
  }

  lemma InsertFront(x: string, s: seq<string>)
    requires Sorted(s) && s != [] && LexLe(x, s[0])
    ensures Sorted([x] + s)
  {
    forall j | 0 <= j < |s| ensures LexLe(x, s[j]) {
      if j > 0 { LexLeTransitive(x, s[0], s[j]); }
    }
    ConsSorted(x, s);
  }

  lemma InsertBehind(x: string, s: seq<string>, rest: seq<string>)
    requires Sorted(s) && s != [] && !LexLe(x, s[0])
    requires Sorted(rest) && multiset(rest) == multiset(s[1..]) + multiset{x}
    ensures Sorted([s[0]] + rest)
    ensures multiset([s[0]] + rest) == multiset(s) + multiset{x}
  {
    LexLeTotal(x, s[0]);
    assert s == [s[0]] + s[1..];
    forall j | 0 <= j < |rest| ensures LexLe(s[0], rest[j]) {
      assert rest[j] in multiset(rest);
      assert rest[j] in multiset(s[1..]) || rest[j] == x;
      if rest[j] != x {
        var k :| 0 <= k < |s[1..]| && s[1..][k] == rest[j];
        assert s[k + 1] == rest[j];
      }
    }
    ConsSorted(s[0], rest);
  }

  /** `sort.Strings`, as an insertion sort. */
  function SortStrings(s: seq<string>): (r: seq<string>)
    ensures Sorted(r)
    ensures multiset(r) == multiset(s)
  {
    if s == [] then []
    else
      assert s == [s[0]] + s[1..];
      Insert(s[0], SortStrings(s[1..]))
  }
}
