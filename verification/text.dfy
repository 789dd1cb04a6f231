/** String operations the indexer borrows from Python's `str` and `os.path`,
    written as total functions on `seq<char>`: prefix tests, substring search,
    `split`, `strip`, ASCII `lower`, `basename`, `splitext`, and the decimal
    rendering of line numbers used inside node ids. */
module Text {

  import opened Wrappers

  /** Python's `s.startswith(prefix)`. */
  predicate StartsWith(s: string, prefix: string) {
    |prefix| <= |s| && s[..|prefix|] == prefix
  }

  /** Python's `s.endswith(suffix)`, which is case-sensitive. */
  predicate EndsWith(s: string, suffix: string) {
    |suffix| <= |s| && s[|s| - |suffix|..] == suffix
  }

  /** Python's `sub in s`, by scanning each start position. */
  predicate Contains(s: string, sub: string)
    decreases |s|
  {
    StartsWith(s, sub) || (|s| > 0 && Contains(s[1..], sub))
  }

  /** `sub` occurs in `s` starting at position `i`. */
  predicate OccursAt(s: string, sub: string, i: int) {
    0 <= i <= |s| - |sub| && s[i..i + |sub|] == sub
  }

  /** `Contains` agrees with the positional definition of a substring, in both directions. */
  lemma {:induction false} ContainsIffOccurs(s: string, sub: string)
    ensures Contains(s, sub) <==> exists i :: OccursAt(s, sub, i)
    decreases |s|
  {
    if Contains(s, sub) {
      if StartsWith(s, sub) {
        assert OccursAt(s, sub, 0);
      } else {
        ContainsIffOccurs(s[1..], sub);
        var i :| OccursAt(s[1..], sub, i);
        assert s[i + 1..i + 1 + |sub|] == s[1..][i..i + |sub|];
        assert OccursAt(s, sub, i + 1);
      }
    }
    if exists i :: OccursAt(s, sub, i) {
      var i :| OccursAt(s, sub, i);
      if i == 0 {
        assert StartsWith(s, sub);
      } else {
        assert s[1..][i - 1..i - 1 + |sub|] == s[i..i + |sub|];
        assert OccursAt(s[1..], sub, i - 1);
        ContainsIffOccurs(s[1..], sub);
      }
    }
  }

  /** Index of the first occurrence of `c` at or after position `k`. */
  function IndexFrom(s: string, c: char, k: nat): (i: nat)
    requires k <= |s| && c in s[k..]
    ensures k <= i < |s| && s[i] == c
    ensures forall j :: k <= j < i ==> s[j] != c
    decreases |s| - k
  {
    if s[k] == c then k
    else
      assert c in s[k + 1..] by {
        var m :| 0 <= m < |s[k..]| && s[k..][m] == c;
        assert s[k + 1..][m - 1] == c;
      }
      IndexFrom(s, c, k + 1)
  }

  /** Index of the first occurrence of `c`. */
  function IndexOf(s: string, c: char): (i: nat)
    requires c in s
    ensures i < |s| && s[i] == c && c !in s[..i]
  {
    assert s[0..] == s;
    var i := IndexFrom(s, c, 0);
    assert forall j :: 0 <= j < i ==> s[..i][j] == s[j];
    i
  }

  /** A position holding `c` with no `c` before it is the first occurrence. */
  lemma IndexOfUnique(s: string, c: char, j: nat)
    requires j < |s| && s[j] == c
    requires forall k :: 0 <= k < j ==> s[k] != c
    ensures IndexOf(s, c) == j
  {
    var i := IndexOf(s, c);
    forall k | 0 <= k < i
      ensures s[k] != c
    {
      assert s[k] == s[..i][k];
    }
  }

  /** Index of the last occurrence of `c` before position `k`. */
  function LastIndexBefore(s: string, c: char, k: nat): (i: nat)
    requires k <= |s| && c in s[..k]
    ensures i < k && s[i] == c
    ensures forall j :: i < j < k ==> s[j] != c
  {
    if s[k - 1] == c then k - 1
    else
      assert c in s[..k - 1] by {
        var m :| 0 <= m < k && s[..k][m] == c;
        assert s[..k - 1][m] == c;
      }
      LastIndexBefore(s, c, k - 1)
  }

  /** Index of the last occurrence of `c` (Python's `s.rfind(c)` when it is found). */
  function LastIndexOf(s: string, c: char): (i: nat)
    requires c in s
    ensures i < |s| && s[i] == c && c !in s[i + 1..]
  {
    assert s[..|s|] == s;
    var i := LastIndexBefore(s, c, |s|);
    var after := s[i + 1..];
    forall j | 0 <= j < |after|
      ensures after[j] != c
    {
      assert after[j] == s[i + 1 + j];
    }
    i
  }

  /** Python's `s.split(sep)` for a one-character separator: always at least
      one piece, and no piece contains the separator. */
  function Split(s: string, sep: char): (parts: seq<string>)
    ensures |parts| >= 1
    ensures forall k :: 0 <= k < |parts| ==> sep !in parts[k]
    decreases |s|
  {
    if sep !in s then [s]
    else
      var i := IndexOf(s, sep);
      [s[..i]] + Split(s[i + 1..], sep)
  }

  /** Python's `sep.join(parts)`. */
  function Join(parts: seq<string>, sep: char): string
    decreases |parts|
  {
    if |parts| == 0 then ""
    else if |parts| == 1 then parts[0]
    else parts[0] + [sep] + Join(parts[1..], sep)
  }

  /** Splitting loses nothing: joining the pieces with the separator gives the input back. */
  lemma {:induction false} JoinSplit(s: string, sep: char)
    ensures Join(Split(s, sep), sep) == s
    decreases |s|
  {
    if sep in s {
      var i := IndexOf(s, sep);
      var rest := Split(s[i + 1..], sep);
      JoinSplit(s[i + 1..], sep);
      assert Split(s, sep) == [s[..i]] + rest;
      assert ([s[..i]] + rest)[1..] == rest;
      assert s == s[..i] + [sep] + s[i + 1..];
    }
  }

  /** `s.split(sep)[0]`: the text before the first separator. */
  function FirstSegment(s: string, sep: char): string {
    Split(s, sep)[0]
  }

  /** The first piece is the longest separator-free prefix. */
  lemma FirstSegmentSpec(s: string, sep: char)
    ensures var r := FirstSegment(s, sep);
      && StartsWith(s, r) && sep !in r
      && (|r| < |s| ==> s[|r|] == sep)
  {
    if sep in s {
      var i := IndexOf(s, sep);
      assert FirstSegment(s, sep) == s[..i];
    }
  }

  /** A position holding `c` with no `c` after it is the last occurrence. */
  lemma LastIndexOfUnique(s: string, c: char, j: nat)
    requires j < |s| && s[j] == c && c !in s[j + 1..]
    ensures LastIndexOf(s, c) == j
  {
    var l := LastIndexOf(s, c);
    forall k | l < k < |s|
      ensures s[k] != c
    {
      assert s[k] == s[l + 1..][k - l - 1];
    }
    forall k | j < k < |s|
      ensures s[k] != c
    {
      assert s[k] == s[j + 1..][k - j - 1];
    }
  }

  /** Where the text after the last `sep` begins (0 when there is none). */
  function AfterLast(s: string, sep: char): (start: nat)
    ensures start <= |s|
  {
    if sep in s then LastIndexOf(s, sep) + 1 else 0
  }

  /** `s.split(sub)[0]` for a separator of several characters: the text before the
      first occurrence of `sub`, or all of `s`. */
  function PrefixBefore(s: string, sub: string): (r: string)
    ensures |r| <= |s|
    decreases |s|
  {
    if |sub| > 0 && StartsWith(s, sub) then []
    else if |s| == 0 then []
    else [s[0]] + PrefixBefore(s[1..], sub)
  }

  /** The piece is a prefix that ends where `sub` first occurs, or the whole string
      when it never does. */
  lemma {:induction false} PrefixBeforeSpec(s: string, sub: string)
    requires |sub| > 0
    ensures var r := PrefixBefore(s, sub);
      && StartsWith(s, r)
      && (r == s || OccursAt(s, sub, |r|))
      && forall i :: 0 <= i < |r| ==> !OccursAt(s, sub, i)
    decreases |s|
  {
    if !StartsWith(s, sub) && |s| > 0 {
      var t := PrefixBefore(s[1..], sub);
      PrefixBeforeSpec(s[1..], sub);
      assert PrefixBefore(s, sub) == [s[0]] + t;
      forall i | 0 <= i < |t| + 1
        ensures !OccursAt(s, sub, i)
      {
        if i > 0 {
          assert OccursAt(s, sub, i) ==> OccursAt(s[1..], sub, i - 1) by {
            if OccursAt(s, sub, i) {
              assert s[1..][i - 1..i - 1 + |sub|] == s[i..i + |sub|];
            }
          }
        }
      }
      if t != s[1..] {
        assert s[1..][|t|..|t| + |sub|] == s[|t| + 1..|t| + 1 + |sub|];
      }
    }
  }

  /** The text before the first `::` of `a + "::" + b` is `a` when `a` has no ':'. */
  lemma {:induction false} PrefixBeforeOfJoin(a: string, b: string)
    requires ':' !in a
    ensures PrefixBefore(a + "::" + b, "::") == a
    decreases |a|
  {
    var s := a + "::" + b;
    if |a| == 0 {
      assert s[..2] == "::";
    } else {
      assert s[0] == a[0] && s[0] != ':';
      assert !StartsWith(s, "::");
      assert s[1..] == a[1..] + "::" + b;
      PrefixBeforeOfJoin(a[1..], b);
      assert [a[0]] + a[1..] == a;
    }
  }

  /** `s.split(sep)[-1]`: the text after the last separator. */
  function LastSegment(s: string, sep: char): string {
    s[AfterLast(s, sep)..]
  }

  /** The last piece is the longest separator-free suffix. */
  lemma LastSegmentSpec(s: string, sep: char)
    ensures var r := LastSegment(s, sep);
      && |r| <= |s| && r == s[|s| - |r|..] && sep !in r
      && (|r| < |s| ==> s[|s| - |r| - 1] == sep)
  {
  }

  /** Dropping everything up to the first separator keeps the last segment. */
  lemma LastSegmentAfterFirst(s: string, sep: char)
    requires sep in s
    ensures LastSegment(s, sep) == LastSegment(s[IndexOf(s, sep) + 1..], sep)
  {
    var i := IndexOf(s, sep);
    var t := s[i + 1..];
    if sep in t {
      var l := LastIndexOf(t, sep);
      assert s[i + 1 + l + 1..] == t[l + 1..];
      LastIndexOfUnique(s, sep, i + 1 + l);
    } else {
      LastIndexOfUnique(s, sep, i);
    }
  }

  /** `LastSegment` is the same piece `Split` puts last. */
  lemma {:induction false} LastSegmentIsLastPiece(s: string, sep: char)
    ensures var parts := Split(s, sep); LastSegment(s, sep) == parts[|parts| - 1]
    decreases |s|
  {
    if sep in s {
      var t := s[IndexOf(s, sep) + 1..];
      LastSegmentIsLastPiece(t, sep);
      LastSegmentAfterFirst(s, sep);
    }
  }

  /** `s.split(sep)[0]` taken only when the separator occurs (`if sep in s`) is the whole
      string otherwise; both forms name the same prefix. */
  lemma FirstSegmentGuarded(s: string, sep: char)
    ensures (if sep in s then Split(s, sep)[0] else s) == FirstSegment(s, sep)
  {
  }

  /** `s.split(sep)[-1]` taken only when the separator occurs is the whole string
      otherwise; both forms name the same suffix. */
  lemma LastSegmentGuarded(s: string, sep: char)
    ensures var parts := Split(s, sep);
      (if sep in s then parts[|parts| - 1] else s) == LastSegment(s, sep)
  {
    LastSegmentIsLastPiece(s, sep);
  }

  /** The first piece of `a + sep + b` is `a` when `a` holds no separator. */
  lemma FirstSegmentOfJoin(a: string, sep: char, b: string)
    requires sep !in a
    ensures FirstSegment(a + [sep] + b, sep) == a
  {
    var s := a + [sep] + b;
    assert s[|a|] == sep;
    forall k | 0 <= k < |a|
      ensures s[k] != sep
    {
      assert s[k] == a[k];
    }
    IndexOfUnique(s, sep, |a|);
    assert s[..|a|] == a;
  }

  /** The last piece of `a + sep + b` is `b` when `b` holds no separator. */
  lemma LastSegmentOfJoin(a: string, sep: char, b: string)
    requires sep !in b
    ensures LastSegment(a + [sep] + b, sep) == b
  {
    var s := a + [sep] + b;
    assert s[|a|] == sep;
    assert s[|a| + 1..] == b;
    LastIndexOfUnique(s, sep, |a|);
  }

  /** Python's `os.path.basename` (posix): the text after the last '/'. */
  function Basename(p: string): string {
    LastSegment(p, '/')
  }

  /** Whether some character of `s[lo..hi]` is not a dot. */
  predicate HasNonDot(s: string, lo: int, hi: int)
    requires 0 <= lo <= hi <= |s|
  {
    exists k :: lo <= k < hi && s[k] != '.'
  }

  /** Python's `os.path.splitext` (posix): the extension starts at the last '.'
      after the last '/', provided some non-dot character of the file name precedes
      that dot; otherwise the extension is empty. Result is `(root, ext)`. */
  function SplitExt(p: string): (string, string) {
    var sepEnd := AfterLast(p, '/');
    if '.' in p && LastIndexOf(p, '.') >= sepEnd && HasNonDot(p, sepEnd, LastIndexOf(p, '.')) then
      var d := LastIndexOf(p, '.');
      (p[..d], p[d..])
    else
      (p, "")
  }

  /** Root and extension put back together give the path; a non-empty extension is a
      dot followed by dot- and slash-free text, strictly shorter than the file name, so
      a name such as ".bashrc" has none. */
  lemma SplitExtSpec(p: string)
    ensures var (root, ext) := SplitExt(p);
      && root + ext == p
      && (ext == [] || (ext[0] == '.' && '/' !in ext && '.' !in ext[1..]))
      && (ext != [] ==> |ext| < |Basename(p)|)
  {
    var sepEnd := AfterLast(p, '/');
    if '.' in p && LastIndexOf(p, '.') >= sepEnd && HasNonDot(p, sepEnd, LastIndexOf(p, '.')) {
      var d := LastIndexOf(p, '.');
      assert p[..d] + p[d..] == p;
      assert p[d..][1..] == p[d + 1..];
      forall k | 0 <= k < |p[d..]|
        ensures p[d..][k] != '/'
      {
        assert p[d..][k] == p[sepEnd..][d + k - sepEnd];
      }
    }
  }

  /** A file name `<name>.<ext>` with no other dot and no slash splits into `<name>`
      and `.<ext>`. */
  lemma SplitExtOfJoin(name: string, ext: string)
    requires |name| > 0 && '.' !in name && '/' !in name
    requires '.' !in ext && '/' !in ext
    ensures SplitExt(name + "." + ext) == (name, "." + ext)
  {
    var p := name + "." + ext;
    assert p[|name|] == '.';
    assert p[|name| + 1..] == ext;
    LastIndexOfUnique(p, '.', |name|);
    assert '/' !in p by {
      forall k | 0 <= k < |p|
        ensures p[k] != '/'
      {
        if k < |name| { assert p[k] == name[k]; }
        else if k > |name| { assert p[k] == ext[k - |name| - 1]; }
      }
    }
    assert AfterLast(p, '/') == 0;
    assert p[0] == name[0] && name[0] != '.';
    assert HasNonDot(p, 0, |name|);
    assert p[..|name|] == name && p[|name|..] == "." + ext;
  }

  /** `os.path.splitext(os.path.basename(path))[0]`: the module name adapters derive
      from a file path. */
  function ModuleName(path: string): string {
    SplitExt(Basename(path)).0
  }

  /** A module name is a prefix of the file name, so it has no '/'. */
  lemma ModuleNameSpec(path: string)
    ensures StartsWith(Basename(path), ModuleName(path)) && '/' !in ModuleName(path)
  {
    var b := Basename(path);
    LastSegmentSpec(path, '/');
    SplitExtSpec(b);
    var m := ModuleName(path);
    assert b[..|m|] == m;
    forall k | 0 <= k < |m|
      ensures m[k] != '/'
    {
      assert m[k] == b[k];
    }
  }

  /** Python's `s.lower()` restricted to ASCII letters. */
  function LowerChar(c: char): char {
    if 'A' <= c <= 'Z' then (c as int + 32) as char else c
  }

  function Lower(s: string): (r: string)
    ensures |r| == |s|
  {
    if |s| == 0 then "" else [LowerChar(s[0])] + Lower(s[1..])
  }

  /** No upper-case ASCII letter survives lowering. */
  lemma {:induction false} LowerHasNoUpper(s: string)
    ensures forall i :: 0 <= i < |s| ==> !('A' <= Lower(s)[i] <= 'Z')
  {
    if |s| > 0 {
      LowerHasNoUpper(s[1..]);
      assert forall i :: 1 <= i < |s| ==> Lower(s)[i] == Lower(s[1..])[i - 1];
    }
  }

  /** Lowering twice is lowering once. */
  lemma {:induction false} LowerIdempotent(s: string)
    ensures Lower(Lower(s)) == Lower(s)
  {
    if |s| > 0 {
      LowerIdempotent(s[1..]);
      assert Lower(s)[1..] == Lower(s[1..]);
    }
  }

  /** Lowering works character by character. */
  lemma {:induction false} LowerAt(s: string)
    ensures forall i :: 0 <= i < |s| ==> Lower(s)[i] == LowerChar(s[i])
  {
    if |s| > 0 {
      LowerAt(s[1..]);
      assert forall i :: 1 <= i < |s| ==> Lower(s)[i] == Lower(s[1..])[i - 1];
    }
  }

  /** Text without upper-case letters is its own lower-case form. */
  lemma LowerOfLower(s: string)
    requires forall i :: 0 <= i < |s| ==> !('A' <= s[i] <= 'Z')
    ensures Lower(s) == s
  {
    LowerAt(s);
  }

  /** A character that is not an upper-case letter occurs in the lowered text only where
      it occurred before. */
  lemma LowerKeepsOther(s: string, c: char)
    requires !('a' <= c <= 'z') && c !in s
    ensures c !in Lower(s)
  {
    LowerAt(s);
  }

  /** Characters Python's `str.isspace` accepts, used by the argument-less `strip()`. */
  const Whitespace: set<char> := {
    ' ', '\t', '\n', '\r', '\U{0B}', '\U{0C}', '\U{1C}', '\U{1D}', '\U{1E}', '\U{1F}',
    '\U{85}', '\U{A0}', '\U{1680}', '\U{2000}', '\U{2001}', '\U{2002}', '\U{2003}',
    '\U{2004}', '\U{2005}', '\U{2006}', '\U{2007}', '\U{2008}', '\U{2009}', '\U{200A}',
    '\U{2028}', '\U{2029}', '\U{202F}', '\U{205F}', '\U{3000}'
  }

  /** `s.lstrip(chars)`: removes leading characters that belong to `cs`. */
  function TrimLeft(s: string, cs: set<char>): (r: string)
    ensures |r| <= |s| && r == s[|s| - |r|..]
    ensures |r| > 0 ==> r[0] !in cs
    ensures forall i :: 0 <= i < |s| - |r| ==> s[i] in cs
  {
    if |s| > 0 && s[0] in cs then
      var r := TrimLeft(s[1..], cs);
      assert forall i :: 1 <= i < |s| - |r| ==> s[i] == s[1..][i - 1];
      r
    else s
  }

  /** `s.rstrip(chars)`: removes trailing characters that belong to `cs`. */
  function TrimRight(s: string, cs: set<char>): (r: string)
    ensures |r| <= |s| && r == s[..|r|]
    ensures |r| > 0 ==> r[|r| - 1] !in cs
    ensures forall i :: |r| <= i < |s| ==> s[i] in cs
  {
    if |s| > 0 && s[|s| - 1] in cs then TrimRight(s[..|s| - 1], cs)
    else s
  }

  /** `s.strip(chars)`: the middle part left after removing every leading and
      trailing character that belongs to `cs`. */
  function StripChars(s: string, cs: set<char>): string {
    TrimRight(TrimLeft(s, cs), cs)
  }

  /** What `strip` keeps is a slice of the input, everything cut on either side
      belongs to `cs`, and the slice neither starts nor ends with a character of `cs`. */
  lemma StripCharsSpec(s: string, cs: set<char>)
    ensures var r := StripChars(s, cs);
      && (|r| > 0 ==> r[0] !in cs && r[|r| - 1] !in cs)
      && exists lo ::
              && OccursAt(s, r, lo)
              && (forall i :: 0 <= i < lo ==> s[i] in cs)
              && (forall i :: lo + |r| <= i < |s| ==> s[i] in cs)
  {
    StripCharsTrimmed(s, cs);
    var l := TrimLeft(s, cs);
    var r := TrimRight(l, cs);
    var lo := |s| - |l|;
    assert l == s[lo..] && r == l[..|r|];
    assert r == s[lo..lo + |r|];
    forall i | lo + |r| <= i < |s|
      ensures s[i] in cs
    {
      assert s[i] == l[i - lo];
    }
    assert OccursAt(s, r, lo);
  }

  /** `s.strip()` with no argument. */
  function Strip(s: string): string {
    StripChars(s, Whitespace)
  }

  /** Stripping is idempotent: what is left already has no strippable ends. */
  lemma StripCharsIdempotent(s: string, cs: set<char>)
    ensures StripChars(StripChars(s, cs), cs) == StripChars(s, cs)
  {
    var r := StripChars(s, cs);
    StripCharsTrimmed(s, cs);
    assert TrimLeft(r, cs) == r;
    assert TrimRight(r, cs) == r;
  }

  /** Neither end of `s` is a character of `cs`: what `strip(cs)` leaves. */
  predicate Trimmed(s: string, cs: set<char>) {
    |s| > 0 ==> s[0] !in cs && s[|s| - 1] !in cs
  }

  /** What `strip` returns is trimmed. */
  lemma StripCharsTrimmed(s: string, cs: set<char>)
    ensures Trimmed(StripChars(s, cs), cs)
  {
    var l := TrimLeft(s, cs);
    var r := TrimRight(l, cs);
    if |r| > 0 {
      assert r[0] == l[0];
    }
  }

  /** `lstrip` removes exactly a leading run of `cs` that stops at a character
      outside `cs`. */
  lemma TrimLeftPrefix(pre: string, rest: string, cs: set<char>)
    requires forall i :: 0 <= i < |pre| ==> pre[i] in cs
    requires |rest| > 0 ==> rest[0] !in cs
    ensures TrimLeft(pre + rest, cs) == rest
  {
    var s := pre + rest;
    var r := TrimLeft(s, cs);
    assert s[|pre|..] == rest;
  }

  /** `rstrip` removes exactly a trailing run of `cs` that stops at a character
      outside `cs`. */
  lemma TrimRightSuffix(init: string, post: string, cs: set<char>)
    requires forall i :: 0 <= i < |post| ==> post[i] in cs
    requires |init| > 0 ==> init[|init| - 1] !in cs
    ensures TrimRight(init + post, cs) == init
  {
    var s := init + post;
    assert s[..|init|] == init;
  }

  /** Stripping text wrapped in characters of `cs` gives the text back, when the text
      itself neither starts nor ends with one. */
  lemma StripCharsWrapped(pre: string, s: string, post: string, cs: set<char>)
    requires forall i :: 0 <= i < |pre| ==> pre[i] in cs
    requires forall i :: 0 <= i < |post| ==> post[i] in cs
    requires |s| > 0 && Trimmed(s, cs)
    ensures StripChars(pre + s + post, cs) == s
  {
    assert pre + s + post == pre + (s + post);
    TrimLeftPrefix(pre, s + post, cs);
    TrimRightSuffix(s, post, cs);
  }

  /** Text whose ends are not in `cs` is left as it is. */
  lemma StripCharsKeepsClean(s: string, cs: set<char>)
    requires |s| > 0 ==> s[0] !in cs && s[|s| - 1] !in cs
    ensures StripChars(s, cs) == s
  {
  }
  /** The argument of a one-line statement such as `import a.b;` or `use a::b;`: the
      stripped text after `keyword`, without a trailing `;` and stripped again; `None`
      when the stripped text does not start with `keyword`. */
  function StatementArgument(text: string, keyword: string): (r: Option<string>)
    ensures r.Some? <==> StartsWith(Strip(text), keyword)
    ensures r.Some? ==> Trimmed(r.value, Whitespace)
  {
    var t := Strip(text);
    if !StartsWith(t, keyword) then None
    else
      var rest := Strip(t[|keyword|..]);
      var arg := if EndsWith(rest, ";") then Strip(rest[..|rest| - 1]) else rest;
      assert Trimmed(arg, Whitespace) by {
        StripCharsTrimmed(t[|keyword|..], Whitespace);
        if EndsWith(rest, ";") {
          StripCharsTrimmed(rest[..|rest| - 1], Whitespace);
        }
      }
      Some(arg)
  }

  /** A statement written as `<keyword><arg>;` or `<keyword><arg>` gives `<arg>` back,
      for a keyword that does not start with a blank and an argument with no blank ends
      that does not itself end in `;`. */
  lemma StatementArgumentRoundTrip(keyword: string, arg: string)
    requires |keyword| > 0 && keyword[0] !in Whitespace
    requires |arg| > 0 && Trimmed(arg, Whitespace) && arg[|arg| - 1] != ';'
    ensures StatementArgument(keyword + arg + ";", keyword) == Some(arg)
    ensures StatementArgument(keyword + arg, keyword) == Some(arg)
  {
    StatementWithSemicolon(keyword, arg);
    StatementWithoutSemicolon(keyword, arg);
  }

  lemma StatementWithSemicolon(keyword: string, arg: string)
    requires |keyword| > 0 && keyword[0] !in Whitespace
    requires |arg| > 0 && Trimmed(arg, Whitespace)
    ensures StatementArgument(keyword + arg + ";", keyword) == Some(arg)
  {
    var s := keyword + arg + ";";
    assert s == keyword + (arg + ";");
    assert Strip(s) == s by {
      assert s[|s| - 1] == ';' && s[0] == keyword[0];
      StripCharsKeepsClean(s, Whitespace);
    }
    SemicolonTerminated(arg);
    StatementArgumentOf(s, keyword, arg + ";");
  }

  /** When the stripped text is `keyword` followed by `rest`, the argument is
      `rest` stripped, with a final `;` and the blanks before it removed. */
  lemma StatementArgumentOf(text: string, keyword: string, rest: string)
    requires Strip(text) == keyword + rest
    ensures var r := Strip(rest);
            StatementArgument(text, keyword) == Some(if EndsWith(r, ";") then Strip(r[..|r| - 1]) else r)
  {
    var t := Strip(text);
    assert t[..|keyword|] == keyword && t[|keyword|..] == rest;
  }

  /** `<arg>;` strips to itself, and without its `;` to `<arg>`. */
  lemma SemicolonTerminated(arg: string)
    requires |arg| > 0 && Trimmed(arg, Whitespace)
    ensures Strip(arg + ";") == arg + ";" && EndsWith(arg + ";", ";")
    ensures (arg + ";")[..|arg|] == arg && Strip(arg) == arg
  {
    var rest := arg + ";";
    assert rest[|rest| - 1] == ';' && rest[0] == arg[0];
    StripCharsKeepsClean(rest, Whitespace);
    StripCharsKeepsClean(arg, Whitespace);
  }

  lemma StatementWithoutSemicolon(keyword: string, arg: string)
    requires |keyword| > 0 && keyword[0] !in Whitespace
    requires |arg| > 0 && Trimmed(arg, Whitespace) && arg[|arg| - 1] != ';'
    ensures StatementArgument(keyword + arg, keyword) == Some(arg)
  {
    StripCharsKeepsClean(arg, Whitespace);
    var s := keyword + arg;
    assert s[|s| - 1] == arg[|arg| - 1] && s[0] == keyword[0];
    StripCharsKeepsClean(s, Whitespace);
    assert s[..|keyword|] == keyword;
    assert s[|keyword|..] == arg;
    assert !EndsWith(arg, ";");
  }



  predicate IsDigit(c: char) {
    '0' <= c <= '9'
  }

  predicate AllDigits(s: string) {
    forall i :: 0 <= i < |s| ==> IsDigit(s[i])
  }

  function DigitChar(d: nat): (c: char)
    requires d < 10
    ensures IsDigit(c)
  {
    ('0' as int + d) as char
  }

  function DigitValue(c: char): nat
    requires IsDigit(c)
  {
    c as int - '0' as int
  }

  /** Python's `str(n)` for a non-negative integer. */
  function NatToString(n: nat): (s: string)
    ensures |s| >= 1 && AllDigits(s)
  {
    if n < 10 then [DigitChar(n)]
    else NatToString(n / 10) + [DigitChar(n % 10)]
  }

  /** The value of a string of decimal digits (empty reads as 0). */
  function ParseDigits(s: string): nat
    requires AllDigits(s)
  {
    if |s| == 0 then 0
    else ParseDigits(s[..|s| - 1]) * 10 + DigitValue(s[|s| - 1])
  }

  /** Rendering a line number in decimal and reading it back gives the number. */
  lemma {:induction false} ParseNatToString(n: nat)
    ensures ParseDigits(NatToString(n)) == n
  {
    if n >= 10 {
      ParseNatToString(n / 10);
      var s := NatToString(n);
      assert s[..|s| - 1] == NatToString(n / 10);
    }
  }

  /** Different line numbers render differently. */
  lemma NatToStringInjective(a: nat, b: nat)
    requires NatToString(a) == NatToString(b)
    ensures a == b
  {
    ParseNatToString(a);
    ParseNatToString(b);
  }

  /** Python's `int(s)` for the accepted shape: surrounding whitespace, an optional
      sign, then one or more ASCII digits. Anything else raises `ValueError`, modelled
      as `None`. */
  function ParseInt(s: string): (r: Option<int>)
    ensures var t := Strip(s);
      r.Some? <==> (|t| > 0 && AllDigits(t)) || (|t| > 1 && (t[0] == '-' || t[0] == '+') && AllDigits(t[1..]))
    ensures r.Some? && Strip(s)[0] == '-' ==> r.value <= 0
    ensures r.Some? && Strip(s)[0] != '-' ==> r.value >= 0
  {
    ParseStripped(Strip(s))
  }

  /** `ParseInt` once the surrounding whitespace is gone. */
  function ParseStripped(t: string): (r: Option<int>)
    ensures r.Some? <==> (|t| > 0 && AllDigits(t)) || (|t| > 1 && (t[0] == '-' || t[0] == '+') && AllDigits(t[1..]))
    ensures r.Some? && t[0] == '-' ==> r.value <= 0
    ensures r.Some? && t[0] != '-' ==> r.value >= 0
  {
    if |t| > 0 && (t[0] == '-' || t[0] == '+') then
      var body := t[1..];
      if |body| > 0 && AllDigits(body) then
        Some(if t[0] == '-' then -(ParseDigits(body) as int) else ParseDigits(body) as int)
      else None
    else if |t| > 0 && AllDigits(t) then Some(ParseDigits(t) as int)
    else None
  }

  /** `int(str(n))` reads back `n`. */
  lemma ParseIntOfNatToString(n: nat)
    ensures ParseInt(NatToString(n)) == Some(n as int)
  {
    var s := NatToString(n);
    DigitNotSpace(s[0]);
    DigitNotSpace(s[|s| - 1]);
    StripCharsKeepsClean(s, Whitespace);
    ParseNatToString(n);
  }

  /** Digits are not whitespace. */
  lemma DigitNotSpace(c: char)
    requires IsDigit(c)
    ensures c !in Whitespace
  {
  }

  function IntToString(n: int): string {
    if n < 0 then "-" + NatToString(-n) else NatToString(n)
  }

  /** `int(str(n))` reads back `n`, negative or not. */
  lemma IntToStringRoundTrip(n: int)
    ensures ParseInt(IntToString(n)) == Some(n)
  {
    if n < 0 {
      NegativeRoundTrip(-n);
    } else {
      ParseIntOfNatToString(n);
    }
  }

  lemma NegativeRoundTrip(m: nat)
    ensures ParseInt("-" + NatToString(m)) == Some(-(m as int))
  {
    ParseNatToString(m);
    ParseMinusDigits(NatToString(m), m);
  }

  /** `-` followed by digits reads back as minus their value. */
  lemma ParseMinusDigits(d: string, m: nat)
    requires |d| > 0 && AllDigits(d) && ParseDigits(d) == m
    ensures ParseInt("-" + d) == Some(-(m as int))
  {
    DigitNotSpace(d[|d| - 1]);
    MinusKeepsClean(d);
    ParseStrippedMinus(d, m);
  }

  /** A leading `-` does not change what `strip` removes from clean text. */
  lemma MinusKeepsClean(d: string)
    requires |d| > 0 && d[|d| - 1] !in Whitespace
    ensures Strip("-" + d) == "-" + d
  {
    var s := "-" + d;
    assert s[|s| - 1] == d[|d| - 1];
    StripCharsKeepsClean(s, Whitespace);
  }

  /** Stripped `-` followed by digits parses to minus their value. */
  lemma ParseStrippedMinus(d: string, m: nat)
    requires |d| > 0 && AllDigits(d) && ParseDigits(d) == m
    ensures ParseStripped("-" + d) == Some(-(m as int))
  {
    var s := "-" + d;
    assert s[1..] == d;
    var body := s[1..];
    assert ParseStripped(s) == Some(-(ParseDigits(body) as int));
  }

}
