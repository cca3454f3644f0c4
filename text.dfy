/** The JavaScript string operations the core uses, on `string = seq<char>`:
    the `\s` and `\w` regular-expression classes, `toLowerCase` (ASCII part),
    `includes`, `trim`, `replace(/\s+/g, " ")`, `replace(/[^\w\s]/g, " ")`,
    `split(c)`, `split(/\s+/)` and `split(/\r?\n/)`. */
module Text {

  /** JavaScript's `\s`: the WhiteSpace and LineTerminator code points of
      ECMAScript (the same set `trim` removes). */
  predicate IsSpace(c: char)
  {
    || c == ' ' || c == '\t' || c == '\n' || c == '\r' || c == '\U{000B}' || c == '\U{000C}'
    || c == '\U{00A0}' || c == '\U{1680}' || ('\U{2000}' <= c <= '\U{200A}')
    || c == '\U{2028}' || c == '\U{2029}' || c == '\U{202F}' || c == '\U{205F}'
    || c == '\U{3000}' || c == '\U{FEFF}'
  }

  /** JavaScript's `\w` (without the `u` flag): `[A-Za-z0-9_]`. */
  predicate IsWordChar(c: char)
  {
    ('a' <= c <= 'z') || ('A' <= c <= 'Z') || ('0' <= c <= '9') || c == '_'
  }

  predicate IsLowerLetter(c: char)
  {
    'a' <= c <= 'z'
  }

  function LowerChar(c: char): char
  {
    if 'A' <= c <= 'Z' then (c as int + 32) as char else c
  }

  /** `toLowerCase` on the ASCII range; other characters are kept. */
  function ToLower(s: string): (r: string)
    ensures |r| == |s|
    ensures forall i :: 0 <= i < |s| ==> r[i] == LowerChar(s[i])
  {
    seq(|s|, i requires 0 <= i < |s| => LowerChar(s[i]))
  }

  ghost predicate OccursAt(s: string, sub: string, i: int)
  {
    0 <= i && i + |sub| <= |s| && s[i..i + |sub|] == sub
  }

  /** `s.includes(sub)`: `sub` occurs somewhere in `s`. */
  function Includes(s: string, sub: string): (b: bool)
    ensures b <==> exists i :: OccursAt(s, sub, i)
    decreases |s|
  {
    if |sub| > |s| then false
    else if s[..|sub|] == sub then
      assert OccursAt(s, sub, 0);
      true
    else
      var b := Includes(s[1..], sub);
      assert b ==> exists i :: OccursAt(s, sub, i) by {
        if b {
          var i :| OccursAt(s[1..], sub, i);
          assert s[1..][i..i + |sub|] == s[i + 1..i + 1 + |sub|];
          assert OccursAt(s, sub, i + 1);
        }
      }
      assert (exists i :: OccursAt(s, sub, i)) ==> b by {
        if exists i :: OccursAt(s, sub, i) {
          var i :| OccursAt(s, sub, i);
          assert i != 0;
          assert s[1..][i - 1..i - 1 + |sub|] == s[i..i + |sub|];
          assert OccursAt(s[1..], sub, i - 1);
        }
      }
      b
  }

  /** A string includes each of its prefixes, whatever follows. */
  lemma IncludesPrefix(prefix: string, rest: string)
    ensures Includes(prefix + rest, prefix)
  {
    assert (prefix + rest)[0..|prefix|] == prefix;
    assert OccursAt(prefix + rest, prefix, 0);
  }

  /** `s.includes(sub)` when `sub` starts at index `i`. */
  lemma IncludesAt(s: string, sub: string, i: nat)
    requires i + |sub| <= |s| && s[i..i + |sub|] == sub
    ensures Includes(s, sub)
  {
    assert OccursAt(s, sub, i);
  }

  /** Every character of `s` is whitespace. */
  ghost predicate AllSpace(s: string)
  {
    forall i :: 0 <= i < |s| ==> IsSpace(s[i])
  }

  /** `trimStart`: drops the leading whitespace. */
  function TrimStart(s: string): (r: string)
    ensures |r| <= |s| && r == s[|s| - |r|..]
    ensures r == [] || !IsSpace(r[0])
  {
    if s != [] && IsSpace(s[0]) then TrimStart(s[1..]) else s
  }

  /** `trimEnd`: drops the trailing whitespace. */
  function TrimEnd(s: string): (r: string)
    ensures |r| <= |s| && r == s[..|r|]
    ensures r == [] || !IsSpace(r[|r| - 1])
  {
    if s != [] && IsSpace(s[|s| - 1]) then TrimEnd(s[..|s| - 1]) else s
  }

  /** `trim`. */
  function Trim(s: string): (r: string)
    ensures r == [] || (!IsSpace(r[0]) && !IsSpace(r[|r| - 1]))
    ensures |r| <= |s|
  {
    TrimEnd(TrimStart(s))
  }

  /** `trimStart` drops whitespace only. */
  lemma {:induction false} TrimStartDropsSpace(s: string)
    ensures AllSpace(s[..|s| - |TrimStart(s)|])
    decreases |s|
  {
    if s != [] && IsSpace(s[0]) {
      TrimStartDropsSpace(s[1..]);
      var n := |s| - |TrimStart(s)|;
      assert s[..n] == [s[0]] + s[1..][..n - 1];
    }
  }

  /** `trimEnd` drops whitespace only. */
  lemma {:induction false} TrimEndDropsSpace(s: string)
    ensures AllSpace(s[|TrimEnd(s)|..])
    decreases |s|
  {
    if s != [] && IsSpace(s[|s| - 1]) {
      var init := s[..|s| - 1];
      TrimEndDropsSpace(init);
      var n := |TrimEnd(s)|;
      assert s[n..] == init[n..] + [s[|s| - 1]];
    }
  }

  /** `trim` returns the interior of its input: what is left once the
      leading and trailing whitespace at `s[..a]` and after the result is
      dropped. */
  lemma TrimInterior(s: string) returns (a: nat)
    ensures a + |Trim(s)| <= |s| && Trim(s) == s[a..a + |Trim(s)|]
    ensures AllSpace(s[..a]) && AllSpace(s[a + |Trim(s)|..])
  {
    var t := TrimStart(s);
    a := |s| - |t|;
    TrimStartDropsSpace(s);
    TrimEndDropsSpace(t);
    var r := TrimEnd(t);
    assert t == s[a..];
    assert r == t[..|r|];
    assert t[..|r|] == s[a..a + |r|];
    assert t[|r|..] == s[a + |r|..];
  }

  /** A string that neither starts nor ends with whitespace is its own `trim`. */
  lemma TrimNoEdgeSpace(s: string)
    requires s == [] || (!IsSpace(s[0]) && !IsSpace(s[|s| - 1]))
    ensures Trim(s) == s
  {
  }

  /** `replace(/\s+/g, " ")`: every maximal run of whitespace becomes one space. */
  function CollapseSpaces(s: string): (r: string)
    ensures |r| <= |s|
    decreases |s|
  {
    if s == [] then []
    else if IsSpace(s[0]) then [' '] + CollapseSpaces(TrimStart(s))
    else [s[0]] + CollapseSpaces(s[1..])
  }

  /** `replace(/\s+/g, " ")` introduces no character but the space. */
  lemma {:induction false} CollapseSpacesKeeps(s: string, c: char)
    requires c !in s && c != ' '
    ensures c !in CollapseSpaces(s)
    decreases |s|
  {
    if s != [] {
      if IsSpace(s[0]) {
        var t := TrimStart(s);
        assert forall i :: 0 <= i < |t| ==> t[i] == s[|s| - |t| + i];
        CollapseSpacesKeeps(t, c);
      } else {
        assert forall i :: 0 <= i < |s| - 1 ==> s[1..][i] == s[i + 1];
        CollapseSpacesKeeps(s[1..], c);
      }
    }
  }

  /** `replace(/[^\w\s]/g, " ")`: every character that is neither a word
      character nor whitespace becomes a space. */
  function ReplaceNonWord(s: string): (r: string)
    ensures |r| == |s|
    ensures forall i :: 0 <= i < |s| ==> r[i] == if IsWordChar(s[i]) || IsSpace(s[i]) then s[i] else ' '
  {
    seq(|s|, i requires 0 <= i < |s| => if IsWordChar(s[i]) || IsSpace(s[i]) then s[i] else ' ')
  }

  /** `split(c)` for a one-character separator: the pieces between the
      occurrences of `c`, empty ones included. */
  function SplitOn(s: string, c: char): (r: seq<string>)
    ensures |r| >= 1
    ensures forall k :: 0 <= k < |r| ==> c !in r[k]
  {
    if s == [] then [[]]
    else if s[0] == c then [[]] + SplitOn(s[1..], c)
    else
      var r := SplitOn(s[1..], c);
      [[s[0]] + r[0]] + r[1..]
  }

  /** `pieces.join(sep)`. */
  function Join(pieces: seq<string>, sep: string): string
  {
    if pieces == [] then []
    else if |pieces| == 1 then pieces[0]
    else pieces[0] + sep + Join(pieces[1..], sep)
  }

  lemma JoinConsChar(x: char, a: string, rest: seq<string>, sep: string)
    ensures Join([[x] + a] + rest, sep) == [x] + Join([a] + rest, sep)
  {
    assert ([[x] + a] + rest)[1..] == rest;
    assert ([a] + rest)[1..] == rest;
  }

  lemma JoinConsEmpty(rest: seq<string>, sep: string)
    requires rest != []
    ensures Join([[]] + rest, sep) == sep + Join(rest, sep)
  {
    assert ([[]] + rest)[1..] == rest;
  }

  /** `split(c)` loses nothing: joining the pieces with `c` gives back the input. */
  lemma {:induction false} SplitOnJoin(s: string, c: char)
    ensures Join(SplitOn(s, c), [c]) == s
    decreases |s|
  {
    if s != [] {
      SplitOnJoin(s[1..], c);
      var r := SplitOn(s[1..], c);
      if s[0] == c {
        JoinConsEmpty(r, [c]);
      } else {
        JoinConsChar(s[0], r[0], r[1..], [c]);
        assert [r[0]] + r[1..] == r;
      }
    }
  }

  /** Without the separator, `split(c)` gives the whole string. */
  lemma {:induction false} SplitOnAbsent(s: string, c: char)
    requires c !in s
    ensures SplitOn(s, c) == [s]
    decreases |s|
  {
    if s != [] {
      assert c !in s[1..];
      SplitOnAbsent(s[1..], c);
      assert [s[0]] + s[1..] == s;
    }
  }

  /** The first piece of `split(c)` is the text before the first `c`. */
  lemma {:induction false} SplitOnFirst(s: string, c: char, k: nat)
    requires k <= |s| && c !in s[..k] && (k == |s| || s[k] == c)
    ensures SplitOn(s, c)[0] == s[..k]
    ensures k < |s| ==> |SplitOn(s, c)| >= 2 && SplitOn(s, c)[1..] == SplitOn(s[k + 1..], c)
  {
    if k > 0 {
      assert s[0] != c by { assert s[..k][0] == s[0]; }
      assert s[1..][..k - 1] == s[1..k];
      SplitOnFirst(s[1..], c, k - 1);
      if k < |s| { assert s[1..][k..] == s[k + 1..]; }
    }
  }

  /** The second piece of `split(c)` is the text between the first `c` and
      the next one (or the end). */
  lemma SplitOnSecond(s: string, c: char, k: nat, j: nat)
    requires k < j <= |s| && s[k] == c && c !in s[..k] && c !in s[k + 1..j]
    requires j == |s| || s[j] == c
    ensures |SplitOn(s, c)| >= 2
    ensures SplitOn(s, c)[0] == s[..k] && SplitOn(s, c)[1] == s[k + 1..j]
  {
    SplitOnFirst(s, c, k);
    var rest := s[k + 1..];
    assert rest[..j - k - 1] == s[k + 1..j];
    SplitOnFirst(rest, c, j - k - 1);
  }

  /** `split(/\s+/)`: the pieces between maximal whitespace runs; a leading
      or trailing run yields an empty first or last piece. */
  function SplitSpaceRuns(s: string): (r: seq<string>)
    ensures |r| >= 1
    ensures forall k, i :: 0 <= k < |r| && 0 <= i < |r[k]| ==> !IsSpace(r[k][i])
    decreases |s|
  {
    if s == [] then [[]]
    else if IsSpace(s[0]) then [[]] + SplitSpaceRuns(TrimStart(s))
    else
      var r := SplitSpaceRuns(s[1..]);
      assert forall i :: 0 <= i < |[s[0]] + r[0]| ==> ([s[0]] + r[0])[i] == if i == 0 then s[0] else r[0][i - 1];
      [[s[0]] + r[0]] + r[1..]
  }

  /** The pieces of `split(/\s+/)` are the non-space runs in order: joined
      with single spaces they give `replace(/\s+/g, " ")` of the input. */
  lemma {:induction false} SplitSpaceRunsJoin(s: string)
    ensures Join(SplitSpaceRuns(s), " ") == CollapseSpaces(s)
    decreases |s|
  {
    if s != [] {
      if IsSpace(s[0]) {
        var t := TrimStart(s);
        assert t == TrimStart(s[1..]);
        SplitSpaceRunsJoin(t);
        JoinConsEmpty(SplitSpaceRuns(t), " ");
      } else {
        SplitSpaceRunsJoin(s[1..]);
        var r := SplitSpaceRuns(s[1..]);
        JoinConsChar(s[0], r[0], r[1..], " ");
        assert [r[0]] + r[1..] == r;
      }
    }
  }

  /** Every character of a piece is a character of the input. */
  lemma {:induction false} SplitSpaceRunsChars(s: string, k: nat, i: nat)
    requires k < |SplitSpaceRuns(s)| && i < |SplitSpaceRuns(s)[k]|
    ensures SplitSpaceRuns(s)[k][i] in s
    decreases |s|
  {
    var r := SplitSpaceRuns(s);
    var c := r[k][i];
    if IsSpace(s[0]) {
      var t := SplitSpaceRunsSpaceHead(s);
      SplitSpaceRunsChars(t, k - 1, i);
      InDrop(c, s, |s| - |t|);
    } else {
      var rest := SplitSpaceRunsCharHead(s);
      if k == 0 && i == 0 {
        assert c == s[0];
      } else if k == 0 {
        assert c == rest[0][i - 1];
        SplitSpaceRunsChars(s[1..], 0, i - 1);
        InDrop(c, s, 1);
      } else {
        assert c == rest[k][i];
        SplitSpaceRunsChars(s[1..], k, i);
        InDrop(c, s, 1);
      }
    }
  }

  /** `split(/\s+/)` of a string starting with whitespace: an empty piece,
      then the pieces of the suffix after the run. */
  lemma SplitSpaceRunsSpaceHead(s: string) returns (t: string)
    requires s != [] && IsSpace(s[0])
    ensures |t| < |s| && t == s[|s| - |t|..]
    ensures SplitSpaceRuns(s) == [[]] + SplitSpaceRuns(t)
  {
    t := TrimStart(s);
    assert t == TrimStart(s[1..]);
  }

  /** `split(/\s+/)` of a string starting with a non-space character: that
      character joins the first piece of the rest. */
  lemma SplitSpaceRunsCharHead(s: string) returns (rest: seq<string>)
    requires s != [] && !IsSpace(s[0])
    ensures rest == SplitSpaceRuns(s[1..])
    ensures SplitSpaceRuns(s) == [[s[0]] + rest[0]] + rest[1..]
  {
    rest := SplitSpaceRuns(s[1..]);
  }

  /** An element of a suffix is an element of the whole. */
  lemma InDrop<T>(x: T, s: seq<T>, j: nat)
    requires j <= |s| && x in s[j..]
    ensures x in s
  {
    var i :| 0 <= i < |s[j..]| && s[j..][i] == x;
    assert s[j + i] == x;
  }

  /** A string with no whitespace is a single piece of `split(/\s+/)`. */
  lemma {:induction false} SplitSpaceRunsNoSpace(s: string)
    requires forall i :: 0 <= i < |s| ==> !IsSpace(s[i])
    ensures SplitSpaceRuns(s) == [s]
  {
    if s != [] {
      SplitSpaceRunsNoSpace(s[1..]);
      assert [s[0]] + s[1..] == s;
    }
  }

  /** `split(/\r?\n/)`: lines separated by `\n` or `\r\n`. */
  function SplitLines(s: string): (r: seq<string>)
    ensures |r| >= 1
    ensures forall k :: 0 <= k < |r| ==> '\n' !in r[k]
  {
    if s == [] then [[]]
    else if s[0] == '\n' then [[]] + SplitLines(s[1..])
    else if s[0] == '\r' && |s| >= 2 && s[1] == '\n' then [[]] + SplitLines(s[2..])
    else
      var r := SplitLines(s[1..]);
      [[s[0]] + r[0]] + r[1..]
  }

  /** The input with each `\r\n` replaced by `\n`. */
  function StripCr(s: string): string
    decreases |s|
  {
    if s == [] then []
    else if s[0] == '\r' && |s| >= 2 && s[1] == '\n' then "\n" + StripCr(s[2..])
    else [s[0]] + StripCr(s[1..])
  }

  /** `split(/\r?\n/)` is `split("\n")` once every `\r\n` is a plain `\n`. */
  lemma {:induction false} SplitLinesBySplitOn(s: string)
    ensures SplitLines(s) == SplitOn(StripCr(s), '\n')
    decreases |s|
  {
    if s != [] {
      if s[0] == '\r' && |s| >= 2 && s[1] == '\n' {
        SplitLinesBySplitOn(s[2..]);
        assert ("\n" + StripCr(s[2..]))[1..] == StripCr(s[2..]);
      } else {
        SplitLinesBySplitOn(s[1..]);
        assert ([s[0]] + StripCr(s[1..]))[1..] == StripCr(s[1..]);
      }
    }
  }

  /** The lines joined with `\n` give back the input up to its `\r\n` pairs. */
  lemma SplitLinesJoin(s: string)
    ensures Join(SplitLines(s), "\n") == StripCr(s)
  {
    SplitLinesBySplitOn(s);
    SplitOnJoin(StripCr(s), '\n');
  }
}
