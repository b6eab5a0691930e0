/** The JavaScript `String.prototype` built-ins the core relies on, over
    strings as sequences of code points: `indexOf`, `includes`, `startsWith`,
    `substring(0, n)`, `replace` with a string pattern, and `trim`. */
module JsString {
  import opened Wrappers

  /** `p` occurs in `s` at index `i`. */
  predicate OccursAt(s: string, p: string, i: int) {
    0 <= i && i + |p| <= |s| && s[i..i + |p|] == p
  }

  lemma OccursAtTail(s: string, p: string)
    requires |s| > 0
    ensures forall j :: 1 <= j ==> (OccursAt(s, p, j) <==> OccursAt(s[1..], p, j - 1))
  {
    forall j | 1 <= j
      ensures OccursAt(s, p, j) <==> OccursAt(s[1..], p, j - 1)
    {
      if j + |p| <= |s| {
        assert s[1..][j - 1..j - 1 + |p|] == s[j..j + |p|];
      }
    }
  }

  /** `s.indexOf(p)`: the first index at which `p` occurs, if any. */
  function IndexOf(s: string, p: string): (r: Option<nat>)
    ensures r.Some? ==> OccursAt(s, p, r.value)
    ensures r.Some? ==> forall j :: 0 <= j < r.value ==> !OccursAt(s, p, j)
    ensures r.None? ==> forall j :: !OccursAt(s, p, j)
    decreases |s|
  {
    if |s| < |p| then None
    else if s[..|p|] == p then Some(0)
    else
      OccursAtTail(s, p);
      match IndexOf(s[1..], p)
      case None => None
      case Some(i) => Some(i + 1)
  }

  /** `s.includes(p)`. */
  predicate Contains(s: string, p: string)
    ensures Contains(s, p) <==> exists j :: OccursAt(s, p, j)
  {
    IndexOf(s, p).Some?
  }

  /** Searching for a one-character pattern is a membership test. */
  lemma ContainsChar(s: string, c: char)
    ensures Contains(s, [c]) <==> c in s
  {
    if c in s {
      var j :| 0 <= j < |s| && s[j] == c;
      assert s[j..j + 1] == [c];
      assert OccursAt(s, [c], j);
    }
    if Contains(s, [c]) {
      var j :| OccursAt(s, [c], j);
      assert s[j] == s[j..j + 1][0];
    }
  }

  /** A pattern whose first character is absent before index `i` and that
      occurs at `i` is first found at `i`. */
  lemma FirstOccurrence(s: string, p: string, i: nat)
    requires p != [] && OccursAt(s, p, i) && p[0] !in s[..i]
    ensures IndexOf(s, p) == Some(i)
    ensures forall j :: 0 <= j < i ==> !OccursAt(s, p, j)
  {
    forall j | 0 <= j < i ensures !OccursAt(s, p, j) {
      assert s[..i][j] == s[j];
      if j + |p| <= |s| {
        assert s[j..j + |p|][0] == s[j];
      }
    }
  }

  /** No character `a` directly followed by `b` means no occurrence of `[a, b]`. */
  lemma NoPair(s: string, a: char, b: char)
    requires forall j :: 0 <= j < |s| - 1 ==> !(s[j] == a && s[j + 1] == b)
    ensures !Contains(s, [a, b])
  {
    forall j ensures !OccursAt(s, [a, b], j) {
      if 0 <= j && j + 2 <= |s| {
        assert s[j] == s[j..j + 2][0] && s[j + 1] == s[j..j + 2][1];
      }
    }
  }

  /** `s.startsWith(p)`. */
  predicate StartsWith(s: string, p: string)
    ensures StartsWith(s, p) <==> |p| <= |s| && s[..|p|] == p
  {
    OccursAt(s, p, 0)
  }

  /** `s.substring(0, n)`: at most the first `n` code points. */
  function Take(s: string, n: nat): (r: string)
    ensures |r| <= n && |r| <= |s| && r == s[..|r|]
    ensures |r| == if |s| <= n then |s| else n
  {
    if |s| <= n then s else s[..n]
  }

  /** The length of `s` in UTF-16 code units, the unit JavaScript strings
      count in: code points above U+FFFF take two. */
  function Utf16Length(s: string): (n: nat)
    ensures n >= |s|
    ensures (forall k :: 0 <= k < |s| ==> s[k] as int < 0x1_0000) ==> n == |s|
    decreases |s|
  {
    if s == [] then 0 else (if s[0] as int < 0x1_0000 then 1 else 2) + Utf16Length(s[1..])
  }

  /** On text without code points above U+FFFF, `Take` counts exactly as
      `substring` does: the prefix is `min(n, length)` code units long. */
  lemma TakeInBasicPlane(s: string, n: nat)
    requires forall k :: 0 <= k < |s| ==> s[k] as int < 0x1_0000
    ensures Utf16Length(Take(s, n)) == if Utf16Length(s) <= n then Utf16Length(s) else n
  {
    var r := Take(s, n);
    assert forall k :: 0 <= k < |r| ==> r[k] == s[k];
  }

  /** `s.replace(p, x)` for a string pattern `p` and a replacement `x` that
      holds no `$` (so no substitution pattern applies): the first occurrence
      of `p`, if any, is replaced by `x`. */
  function ReplaceFirst(s: string, p: string, x: string): (r: string)
    requires '$' !in x
    ensures !Contains(s, p) ==> r == s
    ensures Contains(s, p) ==> |r| == |s| - |p| + |x|
  {
    match IndexOf(s, p)
    case None => s
    case Some(i) => s[..i] + x + s[i + |p|..]
  }

  /** With a first occurrence at `i`, exactly that occurrence is replaced:
      what precedes it and everything after it (later occurrences included)
      are kept. */
  lemma ReplaceFirstAt(s: string, p: string, x: string, i: nat)
    requires '$' !in x
    requires OccursAt(s, p, i)
    requires forall j :: 0 <= j < i ==> !OccursAt(s, p, j)
    ensures ReplaceFirst(s, p, x) == s[..i] + x + s[i + |p|..]
  {
  }

  /** A later occurrence of the pattern (one that does not overlap the first)
      survives `replace`, shifted by the difference in length. */
  lemma ReplaceFirstKeepsLater(s: string, p: string, x: string, i: nat, j: nat)
    requires '$' !in x
    requires OccursAt(s, p, i)
    requires forall k :: 0 <= k < i ==> !OccursAt(s, p, k)
    requires i + |p| <= j && OccursAt(s, p, j)
    ensures OccursAt(ReplaceFirst(s, p, x), p, j - |p| + |x|)
  {
    ReplaceFirstAt(s, p, x, i);
    var r := s[..i] + x + s[i + |p|..];
    var j' := j - |p| + |x|;
    assert r[j'..j' + |p|] == s[j..j + |p|];
  }

  /** The white space and line terminators that `trim` removes. */
  predicate IsJsSpace(c: char)
    ensures c == ' ' || c == '\t' || c == '\n' || c == '\r' ==> IsJsSpace(c)
    ensures '!' <= c <= '~' ==> !IsJsSpace(c)
  {
    c == '\t' || c == '\n' || c == '\U{B}' || c == '\U{C}' || c == '\r' || c == ' ' ||
    c == '\U{A0}' || c == '\U{1680}' || ('\U{2000}' <= c <= '\U{200A}') ||
    c == '\U{2028}' || c == '\U{2029}' || c == '\U{202F}' || c == '\U{205F}' ||
    c == '\U{3000}' || c == '\U{FEFF}'
  }

  function TrimStart(s: string): (r: string)
    ensures |r| <= |s| && r == s[|s| - |r|..]
    ensures forall k :: 0 <= k < |s| - |r| ==> IsJsSpace(s[k])
    ensures r != [] ==> !IsJsSpace(r[0])
  {
    if s != [] && IsJsSpace(s[0]) then TrimStart(s[1..]) else s
  }

  function TrimEnd(s: string): (r: string)
    ensures |r| <= |s| && r == s[..|r|]
    ensures forall k :: |r| <= k < |s| ==> IsJsSpace(s[k])
    ensures r != [] ==> !IsJsSpace(r[|r| - 1])
  {
    if s != [] && IsJsSpace(s[|s| - 1]) then TrimEnd(s[..|s| - 1]) else s
  }

  /** `s.trim()`: `s` without its leading and trailing white space. */
  function Trim(s: string): (r: string)
    ensures r != [] ==> !IsJsSpace(r[0]) && !IsJsSpace(r[|r| - 1])
    ensures var i := |s| - |TrimStart(s)|; i + |r| <= |s| && r == s[i..i + |r|]
    ensures forall k :: 0 <= k < |s| - |TrimStart(s)| ==> IsJsSpace(s[k])
    ensures forall k :: |s| - |TrimStart(s)| + |r| <= k < |s| ==> IsJsSpace(s[k])
  {
    TrimEnd(TrimStart(s))
  }

  /** The trimmed string is empty exactly when the string is all white space. */
  lemma TrimEmptyIff(s: string)
    ensures Trim(s) == [] <==> forall k :: 0 <= k < |s| ==> IsJsSpace(s[k])
  {
    var t := TrimStart(s);
    if Trim(s) == [] {
      assert t == [];
    } else {
      var r := Trim(s);
      assert r[0] == t[0] == s[|s| - |t|];
    }
  }
}
