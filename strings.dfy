/** The Python `str` operations the report and the guards rely on:
    `startswith`, `split(sep)`, `strip()` and `replace(old, "")`, with the
    laws that pin each of them down. */
module Strings {

  /** `s.startswith(p)`. */
  predicate StartsWith(s: string, p: string)
  {
    |p| <= |s| && s[..|p|] == p
  }

  /** `p` occurs in `s` starting at position `i`. */
  predicate OccursAt(s: string, p: string, i: nat)
  {
    i + |p| <= |s| && s[i..i + |p|] == p
  }

  /** `p in s` for a non-empty `p`. */
  predicate Contains(s: string, p: string)
  {
    exists i: nat | i <= |s| :: OccursAt(s, p, i)
  }

  /** `c * n`, a rule of `n` copies of one character. */
  function Repeat(c: char, n: nat): (r: string)
  {
    seq(n, _ => c)
  }

  // ---------------------------------------------------------------------------
  // split / join

  /** Python's `s.split(sep)` for a one-character separator: the pieces between
      separators, so `""` gives `[""]` and a trailing separator gives a trailing
      empty piece. */
  function Split(s: string, sep: char): (r: seq<string>)
    ensures |r| >= 1
    decreases |s|
  {
    if s == [] then [""]
    else
      var rest := Split(s[1..], sep);
      if s[0] == sep then [""] + rest else [[s[0]] + rest[0]] + rest[1..]
  }

  /** Python's `sep.join(ps)`. */
  function Join(ps: seq<string>, sep: char): string
    decreases |ps|
  {
    if |ps| == 0 then ""
    else if |ps| == 1 then ps[0]
    else ps[0] + [sep] + Join(ps[1..], sep)
  }

  /** Each string of `lines` followed by `sep`: what a series of
      `write(line + "\n")` calls puts in a file. */
  function Terminated(lines: seq<string>, sep: char): string
    decreases |lines|
  {
    if lines == [] then "" else lines[0] + [sep] + Terminated(lines[1..], sep)
  }

  /** No piece of a split contains the separator. */
  lemma {:induction false} SplitPiecesLackSep(s: string, sep: char)
    ensures forall k :: 0 <= k < |Split(s, sep)| ==> sep !in Split(s, sep)[k]
    decreases |s|
  {
    if s != [] {
      SplitPiecesLackSep(s[1..], sep);
      var rest := Split(s[1..], sep);
      if s[0] != sep {
        var r := Split(s, sep);
        assert r[0] == [s[0]] + rest[0];
        assert forall k :: 1 <= k < |r| ==> r[k] == rest[k];
      }
    }
  }

  /** Joining the pieces again gives back the original text. */
  lemma {:induction false} JoinSplit(s: string, sep: char)
    ensures Join(Split(s, sep), sep) == s
    decreases |s|
  {
    if s != [] {
      JoinSplit(s[1..], sep);
      var rest := Split(s[1..], sep);
      if s[0] == sep {
        assert Join([""] + rest, sep) == "" + [sep] + Join(rest, sep);
      } else if |rest| == 1 {
        assert Split(s, sep) == [[s[0]] + rest[0]];
      } else {
        var r := Split(s, sep);
        assert r[1..] == rest[1..];
        assert Join(rest, sep) == rest[0] + [sep] + Join(rest[1..], sep);
      }
    }
  }

  /** A text without the separator splits into itself. */
  lemma {:induction false} SplitNoSep(a: string, sep: char)
    requires sep !in a
    ensures Split(a, sep) == [a]
    decreases |a|
  {
    if a != [] {
      SplitNoSep(a[1..], sep);
      assert [a[0]] + a[1..] == a;
    }
  }

  /** The first piece ends at the first separator. */
  lemma {:induction false} SplitAtSep(a: string, sep: char, t: string)
    requires sep !in a
    ensures Split(a + [sep] + t, sep) == [a] + Split(t, sep)
    decreases |a|
  {
    if a == [] {
      assert a + [sep] + t == [sep] + t;
      assert ([sep] + t)[1..] == t;
    } else {
      var s := a + [sep] + t;
      assert s[0] == a[0] && s[1..] == a[1..] + [sep] + t;
      SplitAtSep(a[1..], sep, t);
      assert [a[0]] + a[1..] == a;
    }
  }

  /** Splitting a join of separator-free pieces gives back the pieces. */
  lemma {:induction false} SplitJoin(ps: seq<string>, sep: char)
    requires |ps| >= 1
    requires forall k :: 0 <= k < |ps| ==> sep !in ps[k]
    ensures Split(Join(ps, sep), sep) == ps
    decreases |ps|
  {
    if |ps| == 1 {
      SplitNoSep(ps[0], sep);
    } else {
      SplitJoin(ps[1..], sep);
      SplitAtSep(ps[0], sep, Join(ps[1..], sep));
    }
  }

  /** Separator-terminated lines are the join of the lines and one empty piece. */
  lemma {:induction false} TerminatedIsJoin(lines: seq<string>, sep: char)
    ensures Terminated(lines, sep) == Join(lines + [""], sep)
    decreases |lines|
  {
    if lines != [] {
      TerminatedIsJoin(lines[1..], sep);
      assert (lines + [""])[1..] == lines[1..] + [""];
    }
  }

  /** Splitting separator-terminated lines gives the lines and a final `""`. */
  lemma SplitTerminated(lines: seq<string>, sep: char)
    requires forall k :: 0 <= k < |lines| ==> sep !in lines[k]
    ensures Split(Terminated(lines, sep), sep) == lines + [""]
  {
    TerminatedIsJoin(lines, sep);
    SplitJoin(lines + [""], sep);
  }

  /** The last piece of `a + sep + b` is the last piece of `b`; if `b` has no
      separator, that is `b` itself. */
  lemma LastPieceAfterSep(a: string, sep: char, b: string)
    requires sep !in b
    ensures var r := Split(a + [sep] + b, sep); r[|r| - 1] == b
  {
    TerminatedIsJoin([], sep);
    var ps := Split(a, sep) + [b];
    SplitPiecesLackSep(a, sep);
    JoinSplit(a, sep);
    assert Join(ps, sep) == a + [sep] + b by {
      JoinSnoc(Split(a, sep), sep, b);
    }
    SplitJoin(ps, sep);
  }

  /** Appending one piece to a non-empty join. */
  lemma {:induction false} JoinSnoc(ps: seq<string>, sep: char, b: string)
    requires |ps| >= 1
    ensures Join(ps + [b], sep) == Join(ps, sep) + [sep] + b
    decreases |ps|
  {
    if |ps| > 1 {
      JoinSnoc(ps[1..], sep, b);
      assert (ps + [b])[1..] == ps[1..] + [b];
    }
  }

  // ---------------------------------------------------------------------------
  // strip

  /** The characters Python's `str.isspace()` accepts: tab, line feed,
      vertical tab, form feed, carriage return, the file/group/record/unit
      separators, space, next-line, no-break space and the Unicode space
      separators and line/paragraph separators. */
  const Whitespace: set<char> := {'\t', '\n', '\U{B}', '\U{C}', '\r', '\U{1C}', '\U{1D}', '\U{1E}', '\U{1F}', ' ',
    '\U{85}', '\U{A0}', '\U{1680}', '\U{2000}', '\U{2001}', '\U{2002}', '\U{2003}', '\U{2004}', '\U{2005}',
    '\U{2006}', '\U{2007}', '\U{2008}', '\U{2009}', '\U{200A}', '\U{2028}', '\U{2029}', '\U{202F}',
    '\U{205F}', '\U{3000}'}

  /** The whitespace `str.strip()` removes. */
  predicate IsSpace(c: char)
  {
    c in Whitespace
  }

  /** `s.lstrip(chars)`, the characters to cut given by `cut`. */
  function LStrip(s: string, cut: char -> bool): string
    decreases |s|
  {
    if s != [] && cut(s[0]) then LStrip(s[1..], cut) else s
  }

  /** `s.rstrip(chars)`. */
  function RStrip(s: string, cut: char -> bool): string
    decreases |s|
  {
    if s != [] && cut(s[|s| - 1]) then RStrip(s[..|s| - 1], cut) else s
  }

  /** `lstrip` leaves the suffix of `s` after its leading run of characters
      to cut, and that suffix does not start with one. */
  lemma {:induction false} LStripShape(s: string, cut: char -> bool)
    ensures var r := LStrip(s, cut);
      && |r| <= |s| && r == s[|s| - |r|..]
      && (forall k :: 0 <= k < |s| - |r| ==> cut(s[k]))
      && (r != [] ==> !cut(r[0]))
    decreases |s|
  {
    if s != [] && cut(s[0]) {
      var t := s[1..];
      LStripShape(t, cut);
      var r := LStrip(t, cut);
      assert t[|t| - |r|..] == s[|s| - |r|..];
      forall k | 1 <= k < |s| - |r| ensures cut(s[k]) {
        assert s[k] == t[k - 1];
      }
    }
  }

  /** `rstrip` leaves the prefix of `s` before its trailing run of characters
      to cut, and that prefix does not end with one. */
  lemma {:induction false} RStripShape(s: string, cut: char -> bool)
    ensures var r := RStrip(s, cut);
      && |r| <= |s| && r == s[..|r|]
      && (forall k :: |r| <= k < |s| ==> cut(s[k]))
      && (r != [] ==> !cut(r[|r| - 1]))
    decreases |s|
  {
    if s != [] && cut(s[|s| - 1]) {
      var t := s[..|s| - 1];
      RStripShape(t, cut);
      var r := RStrip(t, cut);
      assert t[..|r|] == s[..|r|];
      forall k | |r| <= k < |s| - 1 ensures cut(s[k]) {
        assert s[k] == t[k];
      }
    }
  }

  /** `s.strip(chars)`. */
  function StripChars(s: string, cut: char -> bool): string
  {
    RStrip(LStrip(s, cut), cut)
  }

  /** `s.strip()`: `strip` with Python's default, the whitespace. */
  function Strip(s: string): string
  {
    StripChars(s, IsSpace)
  }

  /** Stripping leaves nothing exactly when every character is cut. */
  lemma StripCharsEmptyIff(s: string, cut: char -> bool)
    ensures StripChars(s, cut) == "" <==> forall k :: 0 <= k < |s| ==> cut(s[k])
  {
    var l := LStrip(s, cut);
    LStripShape(s, cut);
    RStripShape(l, cut);
    if l != [] {
      assert l[0] == s[|s| - |l|];
    }
  }

  /** A stripped result starts and ends with a character that is not cut, and
      it is the slice of the input left after cutting off the leading run
      (the first `|s| - |LStrip(s, cut)|` characters) and the trailing run. */
  lemma StripCharsShape(s: string, cut: char -> bool)
    ensures |LStrip(s, cut)| <= |s|
    ensures var r, i := StripChars(s, cut), |s| - |LStrip(s, cut)|;
      && (r != "" ==> !cut(r[0]) && !cut(r[|r| - 1]))
      && i + |r| <= |s| && r == s[i..i + |r|]
      && (forall k :: 0 <= k < i ==> cut(s[k]))
      && (forall k :: i + |r| <= k < |s| ==> cut(s[k]))
  {
    var l := LStrip(s, cut);
    var r := RStrip(l, cut);
    var i := |s| - |l|;
    LStripShape(s, cut);
    RStripShape(l, cut);
    assert r == l[..|r|];
    if r != "" {
      assert r[0] == l[0];
    }
    assert r == s[i..i + |r|];
    forall k | i + |r| <= k < |s| ensures cut(s[k]) {
      assert s[k] == l[k - i];
    }
  }

  /** Text that stripping leaves alone, followed by one character that is
      cut, strips back to that text. */
  lemma StripCharsTerminator(name: string, c: char, cut: char -> bool)
    requires cut(c) && StripChars(name, cut) == name
    ensures StripChars(name + [c], cut) == name
  {
    var s := name + [c];
    StripCharsShape(name, cut);
    if name == "" {
      assert s[1..] == "";
    } else {
      assert LStrip(name, cut) == name;
      assert LStrip(s, cut) == s;
      assert s[..|s| - 1] == name;
    }
  }

  /** `s.strip()` is empty exactly when every character of `s` is whitespace
      (so `not s.strip()` is Python's test for a blank command output). */
  lemma StripEmptyIffBlank(s: string)
    ensures Strip(s) == "" <==> forall k :: 0 <= k < |s| ==> IsSpace(s[k])
  {
    StripCharsEmptyIff(s, IsSpace);
  }

  /** Text that `strip()` leaves alone, followed by a line feed (the way
      `git branch --show-current` prints a branch), strips back to that text. */
  lemma StripLineFeed(name: string)
    requires Strip(name) == name
    ensures Strip(name + "\n") == name
  {
    assert IsSpace('\n');
    StripCharsTerminator(name, '\n', IsSpace);
  }

  // ---------------------------------------------------------------------------
  // replace(pat, "")

  /** Python's `s.replace(pat, "")` for a non-empty `pat`: scanning left to
      right, every occurrence that does not overlap an earlier removed one is
      removed. */
  function RemoveAll(s: string, pat: string): (r: string)
    requires pat != ""
    ensures |r| <= |s|
    ensures forall c :: c in r ==> c in s
    decreases |s|
  {
    if |s| < |pat| then s
    else if s[..|pat|] == pat then RemoveAll(s[|pat|..], pat)
    else [s[0]] + RemoveAll(s[1..], pat)
  }

  /** Text without an occurrence of `pat` is left as it is. */
  lemma {:induction false} RemoveAllAbsent(s: string, pat: string)
    requires pat != ""
    requires !Contains(s, pat)
    ensures RemoveAll(s, pat) == s
    decreases |s|
  {
    if |s| >= |pat| {
      assert !OccursAt(s, pat, 0);
      assert !Contains(s[1..], pat) by {
        forall i: nat | OccursAt(s[1..], pat, i) ensures OccursAt(s, pat, i + 1) {
          assert s[1..][i..i + |pat|] == s[i + 1..i + 1 + |pat|];
        }
      }
      RemoveAllAbsent(s[1..], pat);
    }
  }

  const GitSuffix: string := ".git"

  /** `".git"` never overlaps itself: no proper suffix of it is a prefix of it. */
  lemma GitSuffixUnbordered(k: nat)
    requires 1 <= k < |GitSuffix|
    ensures GitSuffix[k..] != GitSuffix[..|GitSuffix| - k]
  {
    assert GitSuffix[k..][0] != GitSuffix[0];
  }

  /** Removing `".git"` from `a + ".git" + b`, where `a` has no `".git"`,
      keeps `a`, removes that occurrence, and goes on with `b`. */
  lemma {:induction false} RemoveGitAfterClean(a: string, b: string)
    requires !Contains(a, GitSuffix)
    ensures RemoveAll(a + GitSuffix + b, GitSuffix) == a + RemoveAll(b, GitSuffix)
    decreases |a|
  {
    var s := a + GitSuffix + b;
    if a == [] {
      assert s == GitSuffix + b;
      assert s[..4] == GitSuffix && s[4..] == b;
    } else {
      assert s[..4] != GitSuffix by {
        if |a| >= 4 {
          assert s[..4] == a[0..4];
          assert !OccursAt(a, GitSuffix, 0);
        } else {
          assert s[..4] == a + GitSuffix[..4 - |a|];
          if s[..4] == GitSuffix {
            assert GitSuffix[|a|..] == s[..4][|a|..];
            GitSuffixUnbordered(|a|);
          }
        }
      }
      assert !Contains(a[1..], GitSuffix) by {
        forall i: nat | OccursAt(a[1..], GitSuffix, i) ensures OccursAt(a, GitSuffix, i + 1) {
          assert a[1..][i..i + 4] == a[i + 1..i + 5];
        }
      }
      assert s[1..] == a[1..] + GitSuffix + b;
      RemoveGitAfterClean(a[1..], b);
      assert [a[0]] + a[1..] == a;
    }
  }
}
