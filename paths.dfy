/**
 * The string and slash-path helpers the handlers rely on: Go's
 * strings.TrimPrefix and strings.Split, and path.Join / path.Dir restricted
 * to paths that are already clean (no "//", no "." or ".." segments).
 */
module Paths {

  /** strings.TrimPrefix: drops `prefix` from the front of `s` when `s` starts with it. */
  function TrimPrefix(s: string, prefix: string): (r: string)
    ensures prefix <= s ==> prefix + r == s
    ensures !(prefix <= s) ==> r == s
  {
    if prefix <= s then s[|prefix|..] else s
  }

  /** Number of occurrences of `c` in `s`. */
  function Count(s: string, c: char): nat
  {
    if s == [] then 0 else (if s[0] == c then 1 else 0) + Count(s[1..], c)
  }

  /** strings.Join with a one-character separator. */
  function JoinWith(parts: seq<string>, sep: char): string
    requires |parts| >= 1
  {
    if |parts| == 1 then parts[0] else parts[0] + [sep] + JoinWith(parts[1..], sep)
  }

  /**
   * strings.Split with a one-character separator: the pieces between the
   * separators, one more piece than there are separators, and joining them
   * back gives the input.
   */
  function Split(s: string, sep: char): (parts: seq<string>)
    ensures |parts| == Count(s, sep) + 1
    ensures forall i :: 0 <= i < |parts| ==> sep !in parts[i]
    ensures JoinWith(parts, sep) == s
  {
    if s == [] then [[]]
    else
      var rest := Split(s[1..], sep);
      if s[0] == sep then
        [[]] + rest
      else
        var head := [s[0]] + rest[0];
        assert ([head] + rest[1..])[1..] == rest[1..];
        [head] + rest[1..]
  }

  /** A piece free of the separator splits to itself. */
  lemma {:induction false} SplitNoSeparator(x: string, sep: char)
    requires sep !in x
    ensures Split(x, sep) == [x]
  {
    if x != [] {
      SplitNoSeparator(x[1..], sep);
    }
  }

  /** Splitting `x + [sep] + y`, with no separator in `x`, gives `x` and then the pieces of `y`. */
  lemma {:induction false} SplitAtFirstSeparator(x: string, sep: char, y: string)
    requires sep !in x
    ensures Split(x + [sep] + y, sep) == [x] + Split(y, sep)
  {
    if x == [] {
      assert x + [sep] + y == [sep] + y;
      assert ([sep] + y)[1..] == y;
    } else {
      var w := x + [sep] + y;
      assert w[0] == x[0] && w[1..] == x[1..] + [sep] + y;
      SplitAtFirstSeparator(x[1..], sep, y);
      var rest := Split(w[1..], sep);
      assert rest[0] == x[1..] && rest[1..] == Split(y, sep);
      assert [x[0]] + x[1..] == x;
    }
  }

  /** The first piece of a split is the longest separator-free prefix. */
  lemma {:induction false} SplitHead(y: string, sep: char)
    ensures var h := Split(y, sep)[0];
      h <= y && sep !in h && (|h| == |y| || y[|h|] == sep)
  {
    if y != [] {
      SplitHead(y[1..], sep);
    }
  }

  /** Joining separator-free pieces and splitting again gives the pieces back. */
  lemma {:induction false} SplitJoinWith(parts: seq<string>, sep: char)
    requires |parts| >= 1
    requires forall i :: 0 <= i < |parts| ==> sep !in parts[i]
    ensures Split(JoinWith(parts, sep), sep) == parts
  {
    if |parts| == 1 {
      SplitNoSeparator(parts[0], sep);
    } else {
      SplitJoinWith(parts[1..], sep);
      SplitAtFirstSeparator(parts[0], sep, JoinWith(parts[1..], sep));
      assert [parts[0]] + parts[1..] == parts;
    }
  }

  /** Index of the last occurrence of `c` in `s`, or -1. */
  function LastIndex(s: string, c: char): (i: int)
    ensures -1 <= i < |s|
    ensures 0 <= i ==> s[i] == c && c !in s[i + 1..]
    ensures i < 0 ==> c !in s
  {
    if s == [] then -1
    else if s[|s| - 1] == c then |s| - 1
    else
      var i := LastIndex(s[..|s| - 1], c);
      assert 0 <= i ==> s[i + 1..] == s[..|s| - 1][i + 1..] + [s[|s| - 1]];
      assert i < 0 ==> s == s[..|s| - 1] + [s[|s| - 1]];
      i
  }

  /**
   * path.Join of a directory and a name, for clean arguments: empty
   * arguments are dropped and exactly one slash separates the two.
   */
  function Join(dir: string, name: string): string
  {
    if dir == [] then name
    else if name == [] then dir
    else if dir[|dir| - 1] == '/' then dir + name
    else dir + "/" + name
  }

  /**
   * path.Dir for clean paths: everything before the last slash, "/" when
   * that slash is the first character, "." when there is no slash.
   */
  function Dir(p: string): string
  {
    var i := LastIndex(p, '/');
    if i < 0 then "." else if i == 0 then "/" else p[..i]
  }

  /** A directory in the form the model assumes: no trailing slash except the root itself. */
  predicate CleanDir(d: string)
  {
    d == [] || d == "/" || d[|d| - 1] != '/'
  }

  /** Dir undoes Join of a clean directory and a plain name. */
  lemma DirOfJoin(d: string, name: string)
    requires CleanDir(d)
    requires name != [] && '/' !in name
    ensures Dir(Join(d, name)) == if d == [] then "." else d
  {
    var p := Join(d, name);
    if d == [] {
      assert p == name;
    } else if d == "/" {
      assert p == "/" + name;
      assert p[0] == '/' && '/' !in p[1..];
    } else {
      assert p == d + "/" + name;
      assert p[|d|] == '/' && p[|d| + 1..] == name;
      assert p[..|d|] == d;
    }
  }
}
