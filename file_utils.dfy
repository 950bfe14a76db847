/** The string helpers of `org.umtools.util.FileUtils`: `getExtension`,
    `getFileName` and `dir`. Java strings are sequences of characters here;
    the platform's `File.separator` is a parameter of `Dir`. */
module FileUtils {

  /** `String.lastIndexOf` for a one-character needle: the highest index
      holding `c`, or -1 when `c` does not occur. */
  function LastIndexOf(s: string, c: char): (r: int)
    ensures -1 <= r < |s|
    ensures r >= 0 ==> s[r] == c
    ensures forall k :: r < k < |s| ==> s[k] != c
    ensures r == -1 <==> c !in s
  {
    if |s| == 0 then -1
    else if s[|s| - 1] == c then |s| - 1
    else LastIndexOf(s[..|s| - 1], c)
  }

  /** `s.substring(s.lastIndexOf(c) + 1)`: the longest suffix of `s` without
      `c`. When `c` does not occur, -1 + 1 = 0 and the whole string comes back. */
  function AfterLast(s: string, c: char): (r: string)
    ensures |r| <= |s| && r == s[|s| - |r|..]
    ensures c !in r
    ensures c in s ==> s[|s| - |r| - 1] == c
    ensures c !in s ==> r == s
  {
    s[LastIndexOf(s, c) + 1..]
  }

  /** `getExtension`: the text after the last '.', the whole name when it
      has no '.', and "" when it ends in '.'. */
  function GetExtension(fileName: string): (r: string)
    ensures |r| <= |fileName| && r == fileName[|fileName| - |r|..] && '.' !in r
    ensures '.' in fileName ==> fileName[|fileName| - |r| - 1] == '.'
    ensures '.' !in fileName ==> r == fileName
  {
    AfterLast(fileName, '.')
  }

  /** `getFileName`: the text after the last '/', the whole path when it has
      no '/', and "" when it ends in '/'. Only '/' separates. */
  function GetFileName(filePath: string): (r: string)
    ensures |r| <= |filePath| && r == filePath[|filePath| - |r|..] && '/' !in r
    ensures '/' in filePath ==> filePath[|filePath| - |r| - 1] == '/'
    ensures '/' !in filePath ==> r == filePath
  {
    AfterLast(filePath, '/')
  }

  /** Taking the suffix after the last `c` a second time changes nothing. */
  lemma AfterLastIdempotent(s: string, c: char)
    ensures AfterLast(AfterLast(s, c), c) == AfterLast(s, c)
  {
  }

  lemma GetExtensionIdempotent(fileName: string)
    ensures GetExtension(GetExtension(fileName)) == GetExtension(fileName)
  {
  }

  lemma GetFileNameIdempotent(filePath: string)
    ensures GetFileName(GetFileName(filePath)) == GetFileName(filePath)
  {
  }

  /** Only '/' separates: whatever follows the last '/' comes back whole,
      including any '\\' in it, so a Windows-style path is not split. */
  lemma BackslashIsNotASeparator(p: string, q: string)
    requires '/' !in q
    ensures GetFileName(p + "/" + q) == q
    ensures GetFileName(q) == q
  {
    var s := p + "/" + q;
    var r := GetFileName(s);
    assert s[|p|] == '/' && s[|p| + 1..] == q;
    assert forall k :: |p| < k < |s| ==> s[k] == q[k - |p| - 1];
  }

  /** `dir(paths...)`, that is `String.join(separator, paths)`: the parts in
      order with one separator between neighbours. */
  function Dir(separator: string, parts: seq<string>): (r: string)
    ensures |parts| == 0 ==> r == ""
    ensures |parts| == 1 ==> r == parts[0]
    ensures |parts| >= 1 ==> |r| == TotalLength(parts) + (|parts| - 1) * |separator|
  {
    if |parts| == 0 then ""
    else if |parts| == 1 then parts[0]
    else parts[0] + separator + Dir(separator, parts[1..])
  }

  /** The summed length of the parts. */
  function TotalLength(parts: seq<string>): nat
  {
    if |parts| == 0 then 0 else |parts[0]| + TotalLength(parts[1..])
  }

  /** The pieces of `s` between occurrences of `c`, keeping every empty
      piece, including trailing ones. Used as the inverse of `Dir`. */
  function Split(s: string, c: char): (r: seq<string>)
    ensures |r| >= 1
  {
    if |s| == 0 then [""]
    else if s[0] == c then [""] + Split(s[1..], c)
    else var rest := Split(s[1..], c); [[s[0]] + rest[0]] + rest[1..]
  }

  /** A string without the separator is one piece. */
  lemma {:induction false} SplitWithout(s: string, c: char)
    requires c !in s
    ensures Split(s, c) == [s]
  {
    if |s| > 0 {
      SplitWithout(s[1..], c);
      assert [s[0]] + s[1..] == s;
    }
  }

  /** Splitting `p + [c] + t` where `p` has no `c` yields `p` first. */
  lemma {:induction false} SplitAfterPiece(p: string, c: char, t: string)
    requires c !in p
    ensures Split(p + [c] + t, c) == [p] + Split(t, c)
  {
    if |p| == 0 {
      assert p + [c] + t == [c] + t;
      assert ([c] + t)[1..] == t;
    } else {
      SplitAfterPiece(p[1..], c, t);
      assert (p + [c] + t)[1..] == p[1..] + [c] + t;
      assert [p[0]] + p[1..] == p;
    }
  }

  /** Joining at least one part with a one-character separator that occurs
      in none of them can be undone by splitting on that character. */
  lemma {:induction false} DirSplitRoundTrip(c: char, parts: seq<string>)
    requires |parts| >= 1
    requires forall i :: 0 <= i < |parts| ==> c !in parts[i]
    ensures Split(Dir([c], parts), c) == parts
  {
    if |parts| == 1 {
      SplitWithout(parts[0], c);
    } else {
      DirSplitRoundTrip(c, parts[1..]);
      SplitAfterPiece(parts[0], c, Dir([c], parts[1..]));
      assert [parts[0]] + parts[1..] == parts;
    }
  }
}
