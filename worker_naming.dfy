/**
 * The names a download worker derives from its task before it starts the
 * external downloader: the file-name prefix used to find its partial files,
 * the format selector handed to the downloader, and the six glob patterns
 * that cancellation deletes.
 */
module WorkerNaming {
  import opened Options
  import opened Decimal

  // ---------- safe prefix ----------

  /**
   * A character the prefix keeps: alphanumeric, space, '-' or '_'. Python's
   * `str.isalnum` ranges over all of Unicode, so it is a parameter here.
   */
  predicate IsSafeChar(c: char, isAlnum: char -> bool) {
    isAlnum(c) || c == ' ' || c == '-' || c == '_'
  }

  predicate AllSafe(s: string, isAlnum: char -> bool) {
    forall i :: 0 <= i < |s| ==> IsSafeChar(s[i], isAlnum)
  }

  /** The characters of `title` that are safe, in their original order. */
  function KeepSafe(title: string, isAlnum: char -> bool): (r: string)
    ensures AllSafe(r, isAlnum)
    ensures |r| <= |title|
    ensures forall c :: c in r <==> c in title && IsSafeChar(c, isAlnum)
    decreases |title|
  {
    if title == [] then []
    else
      var rest := KeepSafe(title[1..], isAlnum);
      assert forall c :: c in title <==> c == title[0] || c in title[1..];
      (if IsSafeChar(title[0], isAlnum) then [title[0]] else []) + rest
  }

  /** Filtering works piecewise, so the kept characters stay in their order. */
  lemma {:induction false} KeepSafeAppend(a: string, b: string, isAlnum: char -> bool)
    ensures KeepSafe(a + b, isAlnum) == KeepSafe(a, isAlnum) + KeepSafe(b, isAlnum)
    decreases |a|
  {
    if a == [] {
      assert a + b == b;
    } else {
      assert (a + b)[0] == a[0] && (a + b)[1..] == a[1..] + b;
      KeepSafeAppend(a[1..], b, isAlnum);
    }
  }

  predicate AllSpaces(s: string) {
    forall i :: 0 <= i < |s| ==> s[i] == ' '
  }

  /** Drops leading spaces. */
  function TrimStart(s: string): (r: string)
    ensures |r| <= |s| && r == s[|s| - |r|..]
    ensures AllSpaces(s[..|s| - |r|])
    ensures r == [] || r[0] != ' '
    decreases |s|
  {
    if s != [] && s[0] == ' ' then
      var r := TrimStart(s[1..]);
      TrimStartStep(s, s[1..], r);
      r
    else s
  }

  /** One leading space more: a suffix of the tail is a suffix of the whole, with one more space cut. */
  lemma TrimStartStep(s: string, t: string, r: string)
    requires s != [] && s[0] == ' ' && t == s[1..]
    requires |r| <= |t| && r == t[|t| - |r|..] && AllSpaces(t[..|t| - |r|])
    ensures r == s[|s| - |r|..] && AllSpaces(s[..|s| - |r|])
  {
    assert t[..|t| - |r|] == s[1..|s| - |r|];
    DropDrop(s, 1, |t| - |r|);
    ConsSpaces(s, |s| - |r|);
  }

  lemma DropDrop(s: string, a: int, b: int)
    requires 0 <= a && 0 <= b && a + b <= |s|
    ensures s[a..][b..] == s[a + b..]
  {
    forall k | 0 <= k < |s| - a - b ensures s[a..][b..][k] == s[a + b..][k] {
      assert s[a + b..][k] == s[a + b + k];
    }
  }

  lemma ConsSpaces(s: string, n: int)
    requires 0 < n <= |s| && s[0] == ' ' && AllSpaces(s[1..n])
    ensures AllSpaces(s[..n])
  {
    forall k | 0 < k < n ensures s[..n][k] == ' ' {
      assert s[..n][k] == s[1..n][k - 1];
    }
  }

  /** Drops trailing spaces. */
  function TrimEnd(s: string): (r: string)
    ensures |r| <= |s| && r == s[..|r|]
    ensures AllSpaces(s[|r|..])
    ensures r == [] || r[|r| - 1] != ' '
    decreases |s|
  {
    if s != [] && s[|s| - 1] == ' ' then
      var r := TrimEnd(s[..|s| - 1]);
      assert s[..|s| - 1][|r|..] == s[|r|..|s| - 1];
      assert s[..|s| - 1][..|r|] == s[..|r|];
      SnocSpaces(s, |r|);
      r
    else s
  }

  lemma SnocSpaces(s: string, m: int)
    requires 0 <= m < |s| && s[|s| - 1] == ' ' && AllSpaces(s[m..|s| - 1])
    ensures AllSpaces(s[m..])
  {
    forall k | 0 <= k < |s| - 1 - m ensures s[m..][k] == ' ' {
      assert s[m..][k] == s[m..|s| - 1][k];
    }
  }

  /**
   * Python's `str.strip()` on filtered text. Of the characters `KeepSafe`
   * lets through only ' ' is whitespace (no alphanumeric character is), so
   * stripping spaces is stripping whitespace.
   */
  function Strip(s: string): string {
    TrimEnd(TrimStart(s))
  }

  /** What the source keeps of a title: the safe characters, stripped. */
  function Sanitize(title: string, isAlnum: char -> bool): string {
    Strip(KeepSafe(title, isAlnum))
  }

  /** `"ph_" + "".join(safe characters of title).strip()` (workers.py:101). */
  function SafePrefix(title: string, isAlnum: char -> bool): string {
    "ph_" + Sanitize(title, isAlnum)
  }

  /**
   * The prefix is "ph_", then a stretch of the filtered title that has
   * only spaces on either side of it and neither begins nor ends with one.
   */
  lemma SafePrefixShape(title: string, isAlnum: char -> bool)
    ensures var p := SafePrefix(title, isAlnum);
      && |p| >= 3 && p[..3] == "ph_"
      && AllSafe(p[3..], isAlnum)
      && (|p| > 3 ==> p[3] != ' ' && p[|p| - 1] != ' ')
      && exists i, j :: 0 <= i <= j <= |KeepSafe(title, isAlnum)|
           && p[3..] == KeepSafe(title, isAlnum)[i..j]
           && AllSpaces(KeepSafe(title, isAlnum)[..i])
           && AllSpaces(KeepSafe(title, isAlnum)[j..])
  {
    var f := KeepSafe(title, isAlnum);
    var p := SafePrefix(title, isAlnum);
    assert p[3..] == Strip(f);
    var i, j := StripShape(f);
    StripEnds(f);
    StripKeepsSafe(f, isAlnum);
  }

  /** Stripping keeps the stretch `f[i..j]` between a run of leading and a run of trailing spaces. */
  lemma StripShape(f: string) returns (i: int, j: int)
    ensures 0 <= i <= j <= |f| && Strip(f) == f[i..j]
    ensures AllSpaces(f[..i]) && AllSpaces(f[j..])
  {
    var l := TrimStart(f);
    var r := TrimEnd(l);
    i := |f| - |l|;
    j := i + |r|;
    assert l == f[i..];
    assert r == l[..|r|];
    DropTake(f, i, |r|);
    DropDrop(f, i, |r|);
    assert AllSpaces(l[|r|..]);
  }

  lemma DropTake(s: string, a: int, b: int)
    requires 0 <= a && 0 <= b && a + b <= |s|
    ensures s[a..][..b] == s[a..a + b]
  {
    forall k | 0 <= k < b ensures s[a..][..b][k] == s[a..a + b][k] {
      assert s[a..a + b][k] == s[a + k];
    }
  }

  /** Stripped text neither begins nor ends with a space. */
  lemma StripEnds(f: string)
    ensures Strip(f) != [] ==> Strip(f)[0] != ' ' && Strip(f)[|Strip(f)| - 1] != ' '
  {
    var l := TrimStart(f);
    var r := TrimEnd(l);
    assert r != [] ==> r[0] == l[0];
  }

  lemma {:induction false} KeepSafeOfSafe(s: string, isAlnum: char -> bool)
    requires AllSafe(s, isAlnum)
    ensures KeepSafe(s, isAlnum) == s
    decreases |s|
  {
    if s != [] {
      KeepSafeOfSafe(s[1..], isAlnum);
    }
  }

  lemma TrimStartOfTrimmed(s: string)
    requires s == [] || s[0] != ' '
    ensures TrimStart(s) == s
  {
  }

  lemma StripIdempotent(s: string)
    ensures Strip(Strip(s)) == Strip(s)
  {
    var r := Strip(s);
    var l := TrimStart(s);
    StripEnds(s);
    TrimStartOfTrimmed(r);
  }

  lemma SliceKeepsSafe(f: string, i: int, j: int, isAlnum: char -> bool)
    requires AllSafe(f, isAlnum) && 0 <= i <= j <= |f|
    ensures AllSafe(f[i..j], isAlnum)
  {
    forall k | 0 <= k < j - i ensures IsSafeChar(f[i..j][k], isAlnum) {
      assert f[i..j][k] == f[i + k];
    }
  }

  /** Stripping keeps a stretch of the text, so safe text stays safe. */
  lemma StripKeepsSafe(f: string, isAlnum: char -> bool)
    requires AllSafe(f, isAlnum)
    ensures AllSafe(Strip(f), isAlnum)
  {
    var i, j := StripShape(f);
    SliceKeepsSafe(f, i, j, isAlnum);
  }

  /** Sanitising an already sanitised title changes nothing. */
  lemma SanitizeIdempotent(title: string, isAlnum: char -> bool)
    ensures Sanitize(Sanitize(title, isAlnum), isAlnum) == Sanitize(title, isAlnum)
  {
    var f := KeepSafe(title, isAlnum);
    StripKeepsSafe(f, isAlnum);
    KeepSafeOfSafe(Strip(f), isAlnum);
    StripIdempotent(f);
  }

  // ---------- format selector ----------

  const BestOverall: string := "bestvideo+bestaudio/best"

  /**
   * The `-f` argument (workers.py:170-173). Python's `if self.height:` is
   * false for `None` and for height 0, so both ask for the best overall.
   */
  function FormatSelector(height: Option<int>): string {
    if height.Some? && height.value != 0 then
      var h := IntToString(height.value);
      "bestvideo[height<=" + h + "]+bestaudio/best[height<=" + h + "]"
    else
      BestOverall
  }

  const CeilingHead: string := "bestvideo[height<="

  /** What follows the first ceiling: the audio stream, then the capped single-file fallback. */
  const FallbackHead: string := "]+bestaudio/best[height<="

  /**
   * Without a usable height the selector is the unconstrained one; with one,
   * the number written after "bestvideo[height<=" reads back as that height.
   */
  lemma FormatSelectorCeiling(height: Option<int>)
    ensures FormatSelector(height) == BestOverall <==> height.None? || height.value == 0
    ensures height.Some? && height.value != 0 ==>
      var f := FormatSelector(height);
      var n := |IntToString(height.value)|;
      && f == CeilingHead + IntToString(height.value) + FallbackHead + IntToString(height.value) + "]"
      && f[..|CeilingHead|] == CeilingHead
      && f[|CeilingHead| + n] == ']'
      && ParseInt(f[|CeilingHead|..|CeilingHead| + n]) == Some(height.value)
      && f[|CeilingHead| + n..|CeilingHead| + n + |FallbackHead|] == FallbackHead
      && f[|f| - 1] == ']'
      && ParseInt(f[|CeilingHead| + n + |FallbackHead|..|f| - 1]) == Some(height.value)
  {
    if height.Some? && height.value != 0 {
      var h := IntToString(height.value);
      var f := FormatSelector(height);
      assert f == CeilingHead + h + FallbackHead + h + "]";
      FiveParts(CeilingHead, h, FallbackHead, h, "]");
      assert |f| > |BestOverall|;
      IntRoundTrip(height.value);
    }
  }

  /** Where each part of a five-part concatenation sits. */
  lemma FiveParts(a: string, b: string, c: string, d: string, e: string)
    ensures var f := a + b + c + d + e;
      && f[..|a|] == a && f[|a|..|a| + |b|] == b && f[|a| + |b|..|a| + |b| + |c|] == c
      && f[|a| + |b| + |c|..|f| - |e|] == d && f[|f| - |e|..] == e
  {
    var f := a + b + c + d + e;
    assert f == (a + b) + (c + (d + e));
  }

  // ---------- cleanup patterns ----------

  /** The partial-file suffixes cancellation removes (workers.py:147-152). */
  const PartialSuffixes: seq<string> := ["*.part", "*.-Frag*", "*-Frag*", "*.ytdl", "*.tmp", "*.temp"]

  /** The six globs for one task's partial files. */
  function CleanupPatterns(prefix: string): (r: seq<string>)
    ensures |r| == |PartialSuffixes|
    ensures forall i :: 0 <= i < |r| ==> r[i] == prefix + PartialSuffixes[i]
  {
    seq(|PartialSuffixes|, i requires 0 <= i < |PartialSuffixes| => prefix + PartialSuffixes[i])
  }

  /**
   * Matching of one file name against a pattern whose only wildcard is
   * '*', case-sensitively, as on POSIX: '*' matches any run of characters,
   * every other character itself.
   */
  predicate Glob(pattern: string, name: string)
    decreases |pattern| + |name|
  {
    if pattern == [] then name == []
    else if pattern[0] == '*' then Glob(pattern[1..], name) || (name != [] && Glob(pattern, name[1..]))
    else name != [] && pattern[0] == name[0] && Glob(pattern[1..], name[1..])
  }

  predicate NoStar(s: string) {
    forall i :: 0 <= i < |s| ==> s[i] != '*'
  }

  /** A literal start of a pattern is a start of every name it matches. */
  lemma {:induction false} GlobLiteralHead(lit: string, rest: string, name: string)
    requires NoStar(lit)
    requires Glob(lit + rest, name)
    ensures |lit| <= |name| && name[..|lit|] == lit
    ensures Glob(rest, name[|lit|..])
    decreases |lit|
  {
    if lit == [] {
      assert lit + rest == rest && name[|lit|..] == name;
    } else {
      assert (lit + rest)[0] == lit[0] && (lit + rest)[1..] == lit[1..] + rest;
      GlobLiteralHead(lit[1..], rest, name[1..]);
      assert name[1..][|lit| - 1..] == name[|lit|..];
    }
  }

  /** A name that is a literal followed by anything a pattern matches. */
  lemma {:induction false} GlobLiteralHeadIntro(lit: string, rest: string, name: string)
    requires NoStar(lit)
    requires Glob(rest, name)
    ensures Glob(lit + rest, lit + name)
    decreases |lit|
  {
    if lit == [] {
      assert lit + rest == rest && lit + name == name;
    } else {
      assert (lit + rest)[0] == lit[0] && (lit + rest)[1..] == lit[1..] + rest;
      assert (lit + name)[0] == lit[0] && (lit + name)[1..] == lit[1..] + name;
      GlobLiteralHeadIntro(lit[1..], rest, name);
    }
  }

  /** '*' followed by a literal matches anything ending with that literal. */
  lemma {:induction false} GlobStarTail(middle: string, tail: string)
    requires NoStar(tail)
    ensures Glob("*" + tail, middle + tail)
    decreases |middle|
  {
    var p := "*" + tail;
    assert p[1..] == tail;
    if middle == [] {
      assert Glob([], []);
      GlobLiteralHeadIntro(tail, [], []);
      assert tail + [] == tail && middle + tail == tail;
    } else {
      GlobStarTail(middle[1..], tail);
      assert (middle + tail)[1..] == middle[1..] + tail;
    }
  }

  /**
   * Cleanup is scoped by the prefix: every file any of the six patterns
   * matches starts with the task's prefix.
   */
  lemma CleanupScopedByPrefix(prefix: string, k: nat, name: string)
    requires NoStar(prefix)
    requires k < |PartialSuffixes|
    requires Glob(CleanupPatterns(prefix)[k], name)
    ensures |prefix| <= |name| && name[..|prefix|] == prefix
  {
    GlobLiteralHead(prefix, PartialSuffixes[k], name);
  }

  /**
   * Any file named the prefix, then anything, then ".part" is one of the
   * files cleanup removes. Whether the downloader names a task's files so
   * is outside this model.
   */
  lemma CleanupRemovesPart(prefix: string, middle: string)
    requires NoStar(prefix)
    ensures Glob(CleanupPatterns(prefix)[0], prefix + middle + ".part")
  {
    GlobStarTail(middle, ".part");
    assert "*" + ".part" == "*.part";
    GlobLiteralHeadIntro(prefix, "*.part", middle + ".part");
    assert prefix + middle + ".part" == prefix + (middle + ".part");
  }

  /** So is any file named the prefix, then anything, then ".ytdl". */
  lemma CleanupRemovesControlFile(prefix: string, middle: string)
    requires NoStar(prefix)
    ensures Glob(CleanupPatterns(prefix)[3], prefix + middle + ".ytdl")
  {
    GlobStarTail(middle, ".ytdl");
    assert "*" + ".ytdl" == "*.ytdl";
    GlobLiteralHeadIntro(prefix, "*.ytdl", middle + ".ytdl");
    assert prefix + middle + ".ytdl" == prefix + (middle + ".ytdl");
  }

  /**
   * Prefixes of different tasks are not kept apart: when one task's prefix
   * begins another's, its cleanup also matches the ".part" files named with
   * the other prefix.
   */
  lemma CleanupOverlapsLongerPrefix(prefix: string, other: string, middle: string)
    requires NoStar(prefix)
    requires |prefix| <= |other| && other[..|prefix|] == prefix
    ensures Glob(CleanupPatterns(prefix)[0], other + middle + ".part")
  {
    var gap := other[|prefix|..];
    assert other + middle + ".part" == prefix + (gap + middle) + ".part";
    CleanupRemovesPart(prefix, gap + middle);
  }

  /** Stripping text made only of spaces leaves nothing. */
  lemma StripOfSpaces(s: string)
    requires AllSpaces(s)
    ensures Strip(s) == []
  {
  }

  /**
   * A title with no safe character other than spaces (or none at all) gives
   * the bare prefix "ph_".
   */
  lemma BlankTitlePrefix(title: string, isAlnum: char -> bool)
    requires AllSpaces(KeepSafe(title, isAlnum))
    ensures SafePrefix(title, isAlnum) == "ph_"
  {
    StripOfSpaces(KeepSafe(title, isAlnum));
  }

  /**
   * The cleanup of a task whose title gives the bare prefix matches the
   * ".part" files named with any task's prefix.
   */
  lemma BlankTitleCleansEveryPart(title: string, other: string, middle: string, isAlnum: char -> bool)
    requires AllSpaces(KeepSafe(title, isAlnum))
    ensures Glob(CleanupPatterns(SafePrefix(title, isAlnum))[0], SafePrefix(other, isAlnum) + middle + ".part")
  {
    BlankTitlePrefix(title, isAlnum);
    var p := SafePrefix(other, isAlnum);
    assert p[..3] == "ph_";
    CleanupOverlapsLongerPrefix("ph_", p, middle);
  }
}
