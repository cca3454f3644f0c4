/** robots.txt root-disallow detection: is the root path `/` disallowed for the
    wildcard user agent? */
module Robots {
  import opened Wrappers
  import opened Text
  import opened Seqs

  /** The `(key, value)` pair the scanner reads from one line of robots.txt,
      or `None` when it skips the line: the line is trimmed and lower-cased,
      whitespace runs become one space, it is split at `:` and the first two
      pieces, both non-empty, are trimmed. Text after a second `:` is dropped. */
  function ParseLine(line: string): Option<(string, string)>
  {
    ParseLowered(ToLower(Trim(line)))
  }

  /** `ParseLine` after the line has been trimmed and lower-cased. */
  function ParseLowered(t: string): Option<(string, string)>
  {
    if |t| == 0 then None
    else ReadPair(CollapseSpaces(Trim(t)))
  }

  /** The split of a normalised line at `:` into its key and value. */
  function ReadPair(n: string): Option<(string, string)>
  {
    var parts := SplitOn(n, ':');
    if parts[0] == [] || |parts| < 2 || parts[1] == [] then None
    else Some((Trim(parts[0]), Trim(parts[1])))
  }

  predicate IsUserAgentAll(line: string)
  {
    ParseLine(line) == Some(("user-agent", "*"))
  }

  predicate IsDisallowRoot(line: string)
  {
    ParseLine(line) == Some(("disallow", "/"))
  }

  /** The answer the scanner gives: some `user-agent: *` line comes before
      some `disallow: /` line. */
  ghost predicate RootForbidden(lines: seq<string>)
  {
    Precedes(lines, IsUserAgentAll, IsDisallowRoot)
  }

  /** The scanner itself: split into lines, then one pass with the two
      line tests. */
  method IsRootForbidden(robots: string) returns (isForbidden: bool)
    ensures isForbidden <==> RootForbidden(SplitOn(robots, '\n'))
  {
    var robotsLines := SplitOn(robots, '\n');
    isForbidden := ScanLines(robotsLines, IsUserAgentAll, IsDisallowRoot);
  }

  /** The pass over the lines with the flags `userAgentAll` (never reset
      once set) and `isForbidden`, leaving the loop at the first
      `disallow: /` line met once the wildcard flag is set. A line that
      parses to nothing (empty, or without a non-empty key and value)
      matches neither test and is skipped. */
  method ScanLines(robotsLines: seq<string>, isUserAgentAll: string -> bool, isDisallowRoot: string -> bool)
    returns (isForbidden: bool)
    requires forall line :: isUserAgentAll(line) ==> !isDisallowRoot(line)
    ensures isForbidden <==> Precedes(robotsLines, isUserAgentAll, isDisallowRoot)
  {
    isForbidden := false;
    var userAgentAll := false;
    var i := 0;
    while i < |robotsLines|
      invariant 0 <= i <= |robotsLines|
      invariant userAgentAll == SeenWithin(robotsLines, i, isUserAgentAll)
      invariant !MetAfter(robotsLines, i, isUserAgentAll, isDisallowRoot)
    {
      var line := robotsLines[i];
      if isUserAgentAll(line) {
        userAgentAll := true;
      } else if userAgentAll && isDisallowRoot(line) {
        isForbidden := true;
        MetAfterMonotone(robotsLines, i + 1, |robotsLines|, isUserAgentAll, isDisallowRoot);
        break;
      }
      i := i + 1;
    }
    ScanDecidesPrecedes(robotsLines, isUserAgentAll, isDisallowRoot);
  }

  /** Lower-casing commutes with trimming. */
  lemma {:induction false} TrimStartToLower(s: string)
    ensures TrimStart(ToLower(s)) == ToLower(TrimStart(s))
  {
    if s != [] {
      var t := ToLower(s);
      assert t[0] == LowerChar(s[0]);
      LowerCharSpace(s[0]);
      if IsSpace(s[0]) {
        assert t[1..] == ToLower(s[1..]);
        TrimStartToLower(s[1..]);
        assert TrimStart(t) == TrimStart(t[1..]);
        assert TrimStart(s) == TrimStart(s[1..]);
      } else {
        assert TrimStart(t) == t;
        assert TrimStart(s) == s;
      }
    }
  }

  lemma LowerCharSpace(c: char)
    ensures IsSpace(LowerChar(c)) == IsSpace(c)
  {
  }

  lemma {:induction false} TrimEndToLower(s: string)
    ensures TrimEnd(ToLower(s)) == ToLower(TrimEnd(s))
  {
    if s != [] {
      var t := ToLower(s);
      assert t[|s| - 1] == LowerChar(s[|s| - 1]);
      LowerCharSpace(s[|s| - 1]);
      if IsSpace(s[|s| - 1]) {
        assert t[..|s| - 1] == ToLower(s[..|s| - 1]);
        TrimEndToLower(s[..|s| - 1]);
        assert TrimEnd(t) == TrimEnd(t[..|s| - 1]);
        assert TrimEnd(s) == TrimEnd(s[..|s| - 1]);
      } else {
        assert TrimEnd(t) == t;
        assert TrimEnd(s) == s;
      }
    }
  }

  lemma ToLowerIdempotent(s: string)
    ensures ToLower(ToLower(s)) == ToLower(s)
  {
  }

  /** Matching ignores case: a line parses as its lower-cased form does. */
  lemma ParseLineIgnoresCase(line: string)
    ensures ParseLine(ToLower(line)) == ParseLine(line)
  {
    TrimStartToLower(line);
    TrimEndToLower(TrimStart(line));
    ToLowerIdempotent(Trim(line));
  }

  lemma {:induction false} TrimStartPrefixSpace(a: string, s: string)
    requires AllSpace(a)
    ensures TrimStart(a + s) == TrimStart(s)
  {
    if a != [] {
      assert (a + s)[0] == a[0] && IsSpace(a[0]);
      assert (a + s)[1..] == a[1..] + s;
      TrimStartPrefixSpace(a[1..], s);
    } else {
      assert a + s == s;
    }
  }

  lemma {:induction false} TrimEndSuffixSpace(s: string, b: string)
    requires AllSpace(b)
    ensures TrimEnd(s + b) == TrimEnd(s)
  {
    if b != [] {
      assert (s + b)[..|s + b| - 1] == s + b[..|b| - 1];
      TrimEndSuffixSpace(s, b[..|b| - 1]);
    } else {
      assert s + b == s;
    }
  }

  lemma {:induction false} TrimStartSuffix(s: string, b: string)
    ensures TrimStart(s) != [] ==> TrimStart(s + b) == TrimStart(s) + b
    ensures TrimStart(s) == [] ==> TrimStart(s + b) == TrimStart(b)
  {
    if s != [] {
      assert (s + b)[0] == s[0];
      assert (s + b)[1..] == s[1..] + b;
      TrimStartSuffix(s[1..], b);
    } else {
      assert s + b == b;
    }
  }

  /** Matching ignores the whitespace that surrounds a line. */
  lemma ParseLineIgnoresSurroundingSpace(a: string, line: string, b: string)
    requires AllSpace(a) && AllSpace(b)
    ensures ParseLine(a + line + b) == ParseLine(line)
  {
    TrimIgnoresSurroundingSpace(a, line, b);
  }

  lemma TrimIgnoresSurroundingSpace(a: string, line: string, b: string)
    requires AllSpace(a) && AllSpace(b)
    ensures Trim(a + line + b) == Trim(line)
  {
    assert a + line + b == a + (line + b);
    TrimStartPrefixSpace(a, line + b);
    TrimStartSuffix(line, b);
    if TrimStart(line) != [] {
      TrimEndSuffixSpace(TrimStart(line), b);
    } else {
      assert TrimStart(b) == [];
    }
  }

  /** The whitespace-normalised, lower-cased form a line is matched on. */
  function Normalised(line: string): string
  {
    CollapseSpaces(Trim(ToLower(Trim(line))))
  }

  lemma CollapseSpacesEmpty(s: string)
    ensures CollapseSpaces(s) == [] <==> s == []
  {
  }

  /** Matching treats internal whitespace runs as one space: lines with the
      same normalised form parse alike. */
  lemma ParseLineByNormalForm(x: string, y: string)
    requires Normalised(x) == Normalised(y)
    ensures ParseLine(x) == ParseLine(y)
  {
    CollapseSpacesEmpty(Trim(ToLower(Trim(x))));
    CollapseSpacesEmpty(Trim(ToLower(Trim(y))));
    TrimToLowerEmpty(x);
    TrimToLowerEmpty(y);
  }

  lemma TrimToLowerEmpty(x: string)
    ensures Trim(ToLower(Trim(x))) == [] <==> ToLower(Trim(x)) == []
  {
    var t := ToLower(Trim(x));
    if t != [] {
      assert !IsSpace(t[0]);
    }
  }

  lemma TrimKeepsOut(s: string, c: char)
    requires c !in s
    ensures c !in Trim(s)
  {
    var a := TrimInterior(s);
    assert Trim(s) == s[a..a + |Trim(s)|];
  }

  /** A line without a colon is skipped. */
  lemma NoColonSkipped(line: string)
    requires ':' !in line
    ensures ParseLine(line) == None
  {
    ParseByNormalised(line);
    NormalisedKeepsColonOut(line);
    NoColonRead(Normalised(line));
  }

  lemma NormalisedKeepsColonOut(line: string)
    requires ':' !in line
    ensures ':' !in Normalised(line)
  {
    TrimKeepsOut(line, ':');
    TrimKeepsOut(ToLower(Trim(line)), ':');
    CollapseSpacesKeeps(Trim(ToLower(Trim(line))), ':');
  }

  lemma NoColonRead(n: string)
    requires ':' !in n
    ensures ReadPair(n) == None
  {
    SplitOnAbsent(n, ':');
  }

  /** A line is read from its normalised form. */
  lemma ParseByNormalised(line: string)
    ensures ParseLine(line) == ReadPair(Normalised(line))
  {
    if ToLower(Trim(line)) == [] {
      assert Normalised(line) == [];
      assert SplitOn([], ':') == [[]];
    }
  }

  /** How a normalised line with a colon is read: the key is the text before
      its first colon, the value the text between the first colon and the
      second one (or the end); the line is skipped when either is empty, and
      both are trimmed otherwise. */
  lemma ReadAtColons(n: string, k: nat, j: nat)
    requires k < j <= |n| && n[k] == ':' && ':' !in n[..k] && ':' !in n[k + 1..j]
    requires j == |n| || n[j] == ':'
    ensures ReadPair(n) ==
      if k == 0 || j == k + 1 then None else Some((Trim(n[..k]), Trim(n[k + 1..j])))
  {
    SplitOnSecond(n, ':', k, j);
  }

  /** A line whose normalised form starts with a colon has an empty key and
      is skipped. */
  lemma EmptyKeySkipped(line: string, rest: string)
    requires Normalised(line) == ":" + rest
    ensures ParseLine(line) == None
  {
    ParseByNormalised(line);
    SplitOnFirst(Normalised(line), ':', 0);
  }

  /** A line whose first colon ends the line or is followed by another colon
      has an empty value and is skipped. */
  lemma EmptyValueSkipped(line: string, key: string, rest: string)
    requires ':' !in key
    requires Normalised(line) == key + ":" || Normalised(line) == key + "::" + rest
    ensures ParseLine(line) == None
  {
    ParseByNormalised(line);
    EmptyValueShape(Normalised(line), key, rest);
  }

  lemma EmptyValueShape(n: string, key: string, rest: string)
    requires ':' !in key
    requires n == key + ":" || n == key + "::" + rest
    ensures ReadPair(n) == None
  {
    var k := |key|;
    assert n[..k] == key && n[k] == ':';
    if k == 0 {
      SplitOnFirst(n, ':', 0);
    } else {
      assert n[k + 1..k + 1] == [];
      ReadAtColons(n, k, k + 1);
    }
  }

  /** How `key:value`, followed by the end of the line or by a colon, is
      read, for a key with no whitespace at its ends. */
  lemma KeyValueShape(n: string, key: string, v: string, tail: string)
    requires key != [] && !IsSpace(key[0]) && !IsSpace(key[|key| - 1]) && ':' !in key
    requires ':' !in v && v != [] && (tail == [] || tail[0] == ':')
    requires n == key + [':'] + v + tail
    ensures ReadPair(n) == Some((key, Trim(v)))
  {
    var k := |key|;
    assert n == key + ([':'] + (v + tail));
    assert n[..k] == key && n[k] == ':';
    assert n[k + 1..] == v + tail;
    assert n[k + 1..k + 1 + |v|] == v;
    if tail != [] {
      assert n[k + 1 + |v|] == tail[0];
    }
    TrimNoEdgeSpace(key);
    ReadAtColons(n, k, k + 1 + |v|);
  }

  /** A `disallow` line counts as `disallow: /` exactly when the text up to
      the next colon (or the end of the line), trimmed, is `/`. */
  lemma DisallowValue(line: string, v: string, tail: string)
    requires ':' !in v && v != [] && (tail == [] || tail[0] == ':')
    requires Normalised(line) == "disallow:" + v + tail
    ensures ParseLine(line) == Some(("disallow", Trim(v)))
    ensures IsDisallowRoot(line) <==> Trim(v) == "/"
  {
    ParseByNormalised(line);
    DisallowPair(Normalised(line), v, tail);
  }

  lemma DisallowPair(n: string, v: string, tail: string)
    requires ':' !in v && v != [] && (tail == [] || tail[0] == ':')
    requires n == "disallow:" + v + tail
    ensures ReadPair(n) == Some(("disallow", Trim(v)))
  {
    DisallowWord();
    DisallowSplit(n, v, tail);
    KeyValueShape(n, "disallow", v, tail);
  }

  /** The key `disallow` has no colon and no whitespace at its ends. */
  lemma DisallowWord()
    ensures var d := "disallow"; |d| == 8 && ':' !in d && !IsSpace(d[0]) && !IsSpace(d[7])
  {
  }

  lemma DisallowSplit(n: string, v: string, tail: string)
    requires n == "disallow:" + v + tail
    ensures n == "disallow" + [':'] + v + tail
  {
    assert "disallow:" == "disallow" + [':'];
  }

  /** `trim` of a space followed by a string with no whitespace at its ends. */
  lemma TrimLeadingSpace(w: string)
    requires w != [] && !IsSpace(w[0]) && !IsSpace(w[|w| - 1])
    ensures Trim(" " + w) == w
  {
    assert (" " + w)[1..] == w;
    TrimNoEdgeSpace(w);
  }

  /** `disallow: /path` and `disallow: / # comment` do not forbid the root:
      anything after the `/` up to the end of the line is part of the value. */
  lemma DisallowPathNotRoot(line: string, path: string)
    requires path != [] && ':' !in path && !IsSpace(path[|path| - 1])
    requires Normalised(line) == "disallow: /" + path
    ensures !IsDisallowRoot(line)
  {
    ParseByNormalised(line);
    PathPair(Normalised(line), path);
    assert |"/" + path| > 1;
  }

  lemma PathPair(n: string, path: string)
    requires path != [] && ':' !in path && !IsSpace(path[|path| - 1])
    requires n == "disallow: /" + path
    ensures ReadPair(n) == Some(("disallow", "/" + path))
  {
    var w := "/" + path;
    PathSplit(n, path);
    TrimLeadingSpace(w);
    DisallowPair(n, " " + w, []);
  }

  lemma PathSplit(n: string, path: string)
    requires n == "disallow: /" + path
    ensures n == "disallow:" + (" " + ("/" + path)) + []
  {
    assert "disallow: /" == "disallow:" + " " + "/";
  }

  /** Text after a second colon is dropped: `disallow: /:x` reads as
      `disallow: /`. */
  lemma DisallowColonSuffixIsRoot(line: string, rest: string)
    requires Normalised(line) == "disallow: /:" + rest
    ensures IsDisallowRoot(line)
  {
    ParseByNormalised(line);
    ColonSuffixPair(Normalised(line), rest);
  }

  lemma ColonSuffixPair(n: string, rest: string)
    requires n == "disallow: /:" + rest
    ensures ReadPair(n) == Some(("disallow", "/"))
  {
    ColonSuffixSplit(n, rest);
    SlashWord();
    ValueBeforeColon(n, "/", rest);
  }

  /** The value `/` has no colon and no whitespace at its ends. */
  lemma SlashWord()
    ensures var w := "/"; |w| == 1 && ':' !in w && !IsSpace(w[0])
  {
  }

  lemma ValueBeforeColon(n: string, w: string, rest: string)
    requires w != [] && ':' !in w && !IsSpace(w[0]) && !IsSpace(w[|w| - 1])
    requires n == "disallow:" + (" " + w) + (":" + rest)
    ensures ReadPair(n) == Some(("disallow", w))
  {
    TrimLeadingSpace(w);
    DisallowPair(n, " " + w, ":" + rest);
  }

  lemma ColonSuffixSplit(n: string, rest: string)
    requires n == "disallow: /:" + rest
    ensures n == "disallow:" + (" " + "/") + (":" + rest)
  {
    assert "disallow: /:" == "disallow:" + (" " + "/") + ":";
  }

  /** The wildcard flag is never reset: a `disallow: /` applies even when
      another line, such as a block for a named crawler, comes between. */
  lemma WildcardFlagNeverReset(agent: string, other: string, disallow: string)
    requires IsUserAgentAll(agent) && IsDisallowRoot(disallow)
    ensures RootForbidden([agent, other, disallow])
  {
    assert IsUserAgentAll([agent, other, disallow][0]) && IsDisallowRoot([agent, other, disallow][2]);
  }

  /** A `disallow: /` before the wildcard block does not count. */
  lemma EarlyDisallowIgnored(disallow: string, agent: string)
    requires IsDisallowRoot(disallow) && IsUserAgentAll(agent)
    ensures !RootForbidden([disallow, agent])
  {
  }

  /** An empty robots.txt forbids nothing. */
  lemma EmptyRobotsAllowsRoot()
    ensures !RootForbidden(SplitOn("", '\n'))
  {
  }
}
