/**
 * The PHP string built-ins the generator relies on, as pure functions:
 * str_replace of a space, str_contains, addslashes (with stripslashes as
 * its inverse), implode, strtolower and the two pathinfo parts it asks for.
 */
module PhpStrings {
  import opened Wrappers

  const NUL: char := 0 as char
  const BACKSLASH: char := '\\'
  /** PHP_EOL on the platforms the library targets. */
  const EOL: string := "\n"

  // ---------------------------------------------------------------------
  // str_replace(" ", "_", s)
  // ---------------------------------------------------------------------

  /** Every space becomes an underscore; nothing else changes. */
  function ReplaceSpaces(s: string): (r: string)
    ensures |r| == |s|
    ensures forall i :: 0 <= i < |s| ==> r[i] == (if s[i] == ' ' then '_' else s[i])
  {
    if s == [] then [] else [if s[0] == ' ' then '_' else s[0]] + ReplaceSpaces(s[1..])
  }

  lemma ReplaceSpacesLeavesNoSpace(s: string)
    ensures ' ' !in ReplaceSpaces(s)
  {
    var r := ReplaceSpaces(s);
    forall i | 0 <= i < |r| ensures r[i] != ' ' {
      assert r[i] == (if s[i] == ' ' then '_' else s[i]);
    }
  }

  /** A name without spaces is left exactly as it is. */
  lemma ReplaceSpacesFixesSpaceless(s: string)
    requires ' ' !in s
    ensures ReplaceSpaces(s) == s
  {
    var r := ReplaceSpaces(s);
    forall i | 0 <= i < |s| ensures r[i] == s[i] {
      assert s[i] != ' ';
    }
  }

  /** Replacing is idempotent. */
  lemma ReplaceSpacesIdempotent(s: string)
    ensures ReplaceSpaces(ReplaceSpaces(s)) == ReplaceSpaces(s)
  {
    ReplaceSpacesLeavesNoSpace(s);
    ReplaceSpacesFixesSpaceless(ReplaceSpaces(s));
  }

  /**
   * The only name that becomes `target` is `target` itself when `target`
   * has neither a space nor an underscore in it (so `id` is found after
   * the replacement exactly where it was before).
   */
  lemma ReplaceSpacesReflects(s: string, target: string)
    requires ' ' !in target && '_' !in target
    ensures ReplaceSpaces(s) == target <==> s == target
  {
    var r := ReplaceSpaces(s);
    if r == target {
      forall i | 0 <= i < |s| ensures s[i] == target[i] {
        assert r[i] == target[i];
        assert target[i] in target;
        assert s[i] != ' ';
      }
    }
    if s == target {
      ReplaceSpacesFixesSpaceless(s);
    }
  }

  // ---------------------------------------------------------------------
  // str_contains(s, sub)
  // ---------------------------------------------------------------------

  predicate OccursAt(s: string, sub: string, i: nat)
  {
    i + |sub| <= |s| && s[i..i + |sub|] == sub
  }

  /** True when `sub` occurs somewhere in `s` (case-sensitive). */
  function Contains(s: string, sub: string): (r: bool)
    ensures r <==> exists i: nat :: OccursAt(s, sub, i)
  {
    if |sub| <= |s| && s[..|sub|] == sub then
      assert OccursAt(s, sub, 0);
      true
    else if s == [] then
      assert |sub| > 0;
      assert forall i: nat :: !OccursAt(s, sub, i);
      false
    else
      var t := Contains(s[1..], sub);
      assert t ==> exists i: nat :: OccursAt(s, sub, i) by {
        if t {
          var j: nat :| OccursAt(s[1..], sub, j);
          assert s[j + 1..j + 1 + |sub|] == s[1..][j..j + |sub|];
          assert OccursAt(s, sub, j + 1);
        }
      }
      assert (exists i: nat :: OccursAt(s, sub, i)) ==> t by {
        if exists i: nat :: OccursAt(s, sub, i) {
          var i: nat :| OccursAt(s, sub, i);
          assert !OccursAt(s, sub, 0) by {
            assert |sub| <= |s| ==> s[0..|sub|] == s[..|sub|];
          }
          assert i != 0;
          assert s[1..][i - 1..i - 1 + |sub|] == s[i..i + |sub|];
          assert OccursAt(s[1..], sub, i - 1);
        }
      }
      t
  }

  // ---------------------------------------------------------------------
  // addslashes / stripslashes
  // ---------------------------------------------------------------------

  /** The characters addslashes puts a backslash in front of. */
  predicate IsSpecial(c: char)
  {
    c == '\'' || c == '"' || c == BACKSLASH || c == NUL
  }

  /** How many characters of `s` addslashes escapes. */
  function SpecialCount(s: string): nat
  {
    multiset(s)['\''] + multiset(s)['"'] + multiset(s)[BACKSLASH] + multiset(s)[NUL]
  }

  /** One character as addslashes writes it; NUL is written as the two characters `\0`. */
  function EscapeChar(c: char): (r: string)
    ensures |r| == if IsSpecial(c) then 2 else 1
  {
    if c == NUL then [BACKSLASH, '0']
    else if IsSpecial(c) then [BACKSLASH, c]
    else [c]
  }

  /** addslashes(s): one backslash before each quote, double quote, backslash and NUL. */
  function AddSlashes(s: string): (r: string)
    ensures |r| == |s| + SpecialCount(s)
  {
    if s == [] then []
    else
      assert s == [s[0]] + s[1..];
      assert multiset(s) == multiset([s[0]]) + multiset(s[1..]);
      EscapeChar(s[0]) + AddSlashes(s[1..])
  }

  /** stripslashes(s): `\0` gives NUL, `\x` gives x, a lone trailing backslash is dropped. */
  function StripSlashes(s: string): string
    decreases |s|
  {
    if s == [] then []
    else if s[0] == BACKSLASH then
      if |s| == 1 then []
      else [if s[1] == '0' then NUL else s[1]] + StripSlashes(s[2..])
    else [s[0]] + StripSlashes(s[1..])
  }

  /** Stripping the slashes addslashes added gives the original value back. */
  lemma {:induction false} StripSlashesInvertsAddSlashes(s: string)
    ensures StripSlashes(AddSlashes(s)) == s
  {
    if s != [] {
      StripSlashesInvertsAddSlashes(s[1..]);
      assert AddSlashes(s) == EscapeChar(s[0]) + AddSlashes(s[1..]);
      StripEscapedChar(s[0], AddSlashes(s[1..]));
      assert [s[0]] + s[1..] == s;
    }
  }

  /** stripslashes turns one character as addslashes writes it back into that character. */
  lemma StripEscapedChar(c: char, t: string)
    ensures StripSlashes(EscapeChar(c) + t) == [c] + StripSlashes(t)
  {
    var e := EscapeChar(c);
    if IsSpecial(c) {
      assert (e + t)[0] == BACKSLASH && (e + t)[2..] == t;
    } else {
      assert (e + t)[0] == c && (e + t)[1..] == t;
    }
  }

  /** addslashes never loses information: different values escape differently. */
  lemma AddSlashesInjective(s: string, t: string)
    requires AddSlashes(s) == AddSlashes(t)
    ensures s == t
  {
    StripSlashesInvertsAddSlashes(s);
    StripSlashesInvertsAddSlashes(t);
  }

  // ---------------------------------------------------------------------
  // implode(sep, parts)
  // ---------------------------------------------------------------------

  /** The parts in order with `sep` between neighbours. */
  function Join(sep: string, parts: seq<string>): string
  {
    if |parts| == 0 then ""
    else if |parts| == 1 then parts[0]
    else parts[0] + sep + Join(sep, parts[1..])
  }

  /** The joined text starts with its first part. */
  lemma {:induction false} JoinStartsWithFirst(sep: string, parts: seq<string>)
    requires |parts| > 0
    ensures |Join(sep, parts)| >= |parts[0]|
    ensures Join(sep, parts)[..|parts[0]|] == parts[0]
  {
    var j := Join(sep, parts);
    if |parts| > 1 {
      assert j == parts[0] + (sep + Join(sep, parts[1..]));
    }
  }

  // ---------------------------------------------------------------------
  // strtolower (ASCII only, as in PHP 8.2 and later)
  // ---------------------------------------------------------------------

  function LowerChar(c: char): char
  {
    if 'A' <= c <= 'Z' then (c as int + 32) as char else c
  }

  function Lower(s: string): (r: string)
    ensures |r| == |s|
    ensures forall i :: 0 <= i < |s| ==> r[i] == LowerChar(s[i])
  {
    if s == [] then [] else [LowerChar(s[0])] + Lower(s[1..])
  }

  // ---------------------------------------------------------------------
  // pathinfo(path, PATHINFO_FILENAME) and pathinfo(path, PATHINFO_EXTENSION)
  // ---------------------------------------------------------------------

  /** The index of the last `c` in `s`, if any. */
  function LastIndexOf(s: string, c: char): (r: Option<nat>)
    ensures r.Some? ==> r.value < |s| && s[r.value] == c
    ensures r.Some? ==> forall j :: r.value < j < |s| ==> s[j] != c
    ensures r.None? <==> c !in s
  {
    if s == [] then None
    else if s[|s| - 1] == c then Some(|s| - 1)
    else
      var r := LastIndexOf(s[..|s| - 1], c);
      assert c in s ==> c in s[..|s| - 1] by {
        if c in s {
          var k :| 0 <= k < |s| && s[k] == c;
          assert s[..|s| - 1][k] == c;
        }
      }
      r
  }

  /** When `c` occurs in `b` nowhere, the last `c` of `a + [c] + b` is the one after `a`. */
  lemma {:induction false} LastIndexAfter(a: string, c: char, b: string)
    requires c !in b
    ensures LastIndexOf(a + [c] + b, c) == Some(|a|)
    decreases |b|
  {
    var s := a + [c] + b;
    if b != [] {
      var front := b[..|b| - 1];
      assert s[|s| - 1] == b[|b| - 1];
      assert s[..|s| - 1] == a + [c] + front;
      assert forall x :: x in front ==> x in b;
      LastIndexAfter(a, c, front);
    }
  }

  /** The part of the path after its last `/` (the whole path when it has none). */
  function BaseName(path: string): (r: string)
    ensures '/' !in r
    ensures |r| <= |path| && r == path[|path| - |r|..]
    ensures |r| == |path| || path[|path| - |r| - 1] == '/'
  {
    match LastIndexOf(path, '/')
    case None => path
    case Some(i) =>
      path[i + 1..]
  }

  /** PATHINFO_FILENAME: the base name cut at its last dot. */
  function FileName(path: string): (r: string)
    ensures '/' !in r
  {
    var base := BaseName(path);
    match LastIndexOf(base, '.')
    case None => base
    case Some(i) =>
      assert forall j :: 0 <= j < i ==> base[..i][j] == base[j];
      base[..i]
  }

  /** PATHINFO_EXTENSION: what follows the last dot of the base name, or nothing. */
  function Extension(path: string): (r: string)
    ensures '/' !in r && '.' !in r
  {
    var base := BaseName(path);
    match LastIndexOf(base, '.')
    case None => ""
    case Some(i) =>
      base[i + 1..]
  }

  /** A path `dir/stem.ext` splits back into `stem` and `ext`. */
  lemma PathInfoParts(dir: string, stem: string, ext: string)
    requires '/' !in stem && '/' !in ext && '.' !in ext
    ensures FileName(dir + "/" + stem + "." + ext) == stem
    ensures Extension(dir + "/" + stem + "." + ext) == ext
  {
    var path := dir + "/" + stem + "." + ext;
    assert path == dir + ['/'] + (stem + "." + ext);
    assert '/' !in stem + "." + ext;
    LastIndexAfter(dir, '/', stem + "." + ext);
    assert BaseName(path) == stem + "." + ext;
    assert stem + "." + ext == stem + ['.'] + ext;
    LastIndexAfter(stem, '.', ext);
    assert (stem + ['.'] + ext)[..|stem|] == stem;
    assert (stem + ['.'] + ext)[|stem| + 1..] == ext;
  }

  /** A path `stem.ext` with no directory part splits the same way. */
  lemma PathInfoBare(stem: string, ext: string)
    requires '/' !in stem && '/' !in ext && '.' !in ext
    ensures FileName(stem + "." + ext) == stem
    ensures Extension(stem + "." + ext) == ext
  {
    var path := stem + "." + ext;
    assert path == stem + ['.'] + ext;
    assert '/' !in path;
    assert BaseName(path) == path;
    LastIndexAfter(stem, '.', ext);
    assert path[..|stem|] == stem;
    assert path[|stem| + 1..] == ext;
  }
}
