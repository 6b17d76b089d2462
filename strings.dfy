/**
 * The parts of Rust's `str` API the core relies on, over `seq<char>`.
 * Character classes and case mapping are ASCII.
 */
module Strings {
  import opened Wrappers

  // ---------------------------------------------------------------------------
  // Character classes and case

  predicate IsDigit(c: char) { '0' <= c <= '9' }
  predicate IsAsciiUpper(c: char) { 'A' <= c <= 'Z' }
  predicate IsAsciiLower(c: char) { 'a' <= c <= 'z' }
  predicate IsAlphanumeric(c: char) { IsDigit(c) || IsAsciiUpper(c) || IsAsciiLower(c) }

  /** `char::is_whitespace`, restricted to ASCII. */
  predicate IsWhitespace(c: char)
  {
    c == ' ' || c == '\t' || c == '\n' || c == '\r' || c == '\U{000B}' || c == '\U{000C}'
  }

  function LowerChar(c: char): char
  {
    if IsAsciiUpper(c) then (c as int + 32) as char else c
  }

  function UpperChar(c: char): char
  {
    if IsAsciiLower(c) then (c as int - 32) as char else c
  }

  /** `str::to_lowercase`. */
  function ToLower(s: string): string
  {
    seq(|s|, i requires 0 <= i < |s| => LowerChar(s[i]))
  }

  /** `str::to_uppercase`. */
  function ToUpper(s: string): string
  {
    seq(|s|, i requires 0 <= i < |s| => UpperChar(s[i]))
  }

  lemma ToLowerIdempotent(s: string)
    ensures ToLower(ToLower(s)) == ToLower(s)
  {
  }

  lemma LowerOfUpper(s: string)
    ensures ToLower(ToUpper(s)) == ToLower(s)
  {
  }

  lemma ToLowerConcat(a: string, b: string)
    ensures ToLower(a + b) == ToLower(a) + ToLower(b)
  {
  }

  lemma ToUpperConcat(a: string, b: string)
    ensures ToUpper(a + b) == ToUpper(a) + ToUpper(b)
  {
  }

  // ---------------------------------------------------------------------------
  // Prefixes, suffixes, substrings

  predicate StartsWith(s: string, p: string) { |p| <= |s| && s[..|p|] == p }
  predicate EndsWith(s: string, p: string) { |p| <= |s| && s[|s| - |p|..] == p }

  /** `str::contains` with a string pattern. */
  predicate Contains(s: string, sub: string)
    decreases |s|
  {
    StartsWith(s, sub) || (|s| > 0 && Contains(s[1..], sub))
  }

  /** `str::strip_prefix`. */
  function StripPrefix(s: string, p: string): Option<string>
  {
    if StartsWith(s, p) then Some(s[|p|..]) else None
  }

  /** `str::strip_suffix`. */
  function StripSuffix(s: string, p: string): Option<string>
  {
    if EndsWith(s, p) then Some(s[..|s| - |p|]) else None
  }

  /** First index of `c` in `s` (`str::find` with a char). */
  function IndexOf(s: string, c: char): (r: Option<nat>)
    ensures r.None? <==> c !in s
    ensures r.Some? ==> r.value < |s| && s[r.value] == c && c !in s[..r.value]
  {
    if |s| == 0 then None
    else if s[0] == c then Some(0)
    else match IndexOf(s[1..], c)
      case None => None
      case Some(i) => assert s[1..][..i] == s[1..i + 1]; Some(i + 1)
  }

  /** Last index of `c` in `s` (`str::rfind` with a char). */
  function LastIndexOf(s: string, c: char): (r: Option<nat>)
    ensures r.None? <==> c !in s
    ensures r.Some? ==> r.value < |s| && s[r.value] == c && c !in s[r.value + 1..]
  {
    if |s| == 0 then None
    else if s[|s| - 1] == c then Some(|s| - 1)
    else LastIndexOf(s[..|s| - 1], c)
  }

  /** First index at which `sub` occurs in `s` (`str::find` with a string pattern). */
  function FindSub(s: string, sub: string): (r: Option<nat>)
    ensures r.Some? ==> r.value + |sub| <= |s| && s[r.value..r.value + |sub|] == sub
    ensures r.None? <==> !Contains(s, sub)
    decreases |s|
  {
    if StartsWith(s, sub) then Some(0)
    else if |s| == 0 then None
    else match FindSub(s[1..], sub)
      case None => None
      case Some(i) => Some(i + 1)
  }

  // ---------------------------------------------------------------------------
  // Trimming

  function TrimStart(s: string): (r: string)
    ensures |r| <= |s| && r == s[|s| - |r|..]
    ensures r == [] || !IsWhitespace(r[0])
    ensures forall i :: 0 <= i < |s| - |r| ==> IsWhitespace(s[i])
  {
    if |s| > 0 && IsWhitespace(s[0]) then TrimStart(s[1..]) else s
  }

  function TrimEnd(s: string): (r: string)
    ensures |r| <= |s| && r == s[..|r|]
    ensures r == [] || !IsWhitespace(r[|r| - 1])
    ensures forall i :: |r| <= i < |s| ==> IsWhitespace(s[i])
  {
    if |s| > 0 && IsWhitespace(s[|s| - 1]) then TrimEnd(s[..|s| - 1]) else s
  }

  /** `str::trim`: no whitespace is left at either end. */
  function Trim(s: string): (r: string)
    ensures r == [] || (!IsWhitespace(r[0]) && !IsWhitespace(r[|r| - 1]))
  {
    TrimStart(TrimEnd(s))
  }

  /** Trimming twice is trimming once. */
  lemma TrimIdempotent(s: string)
    ensures Trim(Trim(s)) == Trim(s)
  {
    var r := Trim(s);
    if r != [] {
      assert TrimEnd(r) == r;
      assert TrimStart(r) == r;
    }
  }

  /** `str::trim_matches` with a char: strips every leading and trailing `c`. */
  function TrimMatches(s: string, c: char): (r: string)
    ensures r == [] || (r[0] != c && r[|r| - 1] != c)
    decreases |s|
  {
    if |s| > 0 && s[0] == c then TrimMatches(s[1..], c)
    else if |s| > 0 && s[|s| - 1] == c then TrimMatches(s[..|s| - 1], c)
    else s
  }

  /** `str::trim_start_matches` with a char. */
  function TrimStartMatches(s: string, c: char): (r: string)
    ensures |r| <= |s| && r == s[|s| - |r|..]
    ensures r == [] || r[0] != c
    ensures forall i :: 0 <= i < |s| - |r| ==> s[i] == c
  {
    if |s| > 0 && s[0] == c then TrimStartMatches(s[1..], c) else s
  }

  /** `str::trim_end_matches` with a non-empty string pattern: strips it repeatedly. */
  function TrimEndMatches(s: string, p: string): (r: string)
    requires |p| > 0
    ensures |r| <= |s| && r == s[..|r|]
    ensures !EndsWith(r, p)
    decreases |s|
  {
    if EndsWith(s, p) then TrimEndMatches(s[..|s| - |p|], p) else s
  }

  // ---------------------------------------------------------------------------
  // Splitting and joining

  /** `str::split` with a char: always at least one piece, no piece contains `c`. */
  function Split(s: string, c: char): (r: seq<string>)
    ensures |r| >= 1
    ensures forall i :: 0 <= i < |r| ==> c !in r[i]
    decreases |s|
  {
    match IndexOf(s, c)
    case None => [s]
    case Some(i) => [s[..i]] + Split(s[i + 1..], c)
  }

  /** `[T]::join`. */
  function Join(parts: seq<string>, sep: string): string
  {
    if |parts| == 0 then ""
    else if |parts| == 1 then parts[0]
    else parts[0] + sep + Join(parts[1..], sep)
  }

  lemma JoinCons(a: string, t: seq<string>, sep: string)
    requires |t| >= 1
    ensures Join([a] + t, sep) == a + sep + Join(t, sep)
  {
    assert ([a] + t)[1..] == t;
  }

  lemma {:induction false} JoinSplit(s: string, c: char)
    ensures Join(Split(s, c), [c]) == s
    decreases |s|
  {
    match IndexOf(s, c)
    case None =>
    case Some(i) =>
      var rest := Split(s[i + 1..], c);
      assert Split(s, c) == [s[..i]] + rest;
      JoinCons(s[..i], rest, [c]);
      JoinSplit(s[i + 1..], c);
      assert s == s[..i] + [c] + s[i + 1..];
  }

  lemma {:induction false} SplitJoin(parts: seq<string>, c: char)
    requires |parts| >= 1
    requires forall i :: 0 <= i < |parts| ==> c !in parts[i]
    ensures Split(Join(parts, [c]), c) == parts
    decreases |parts|
  {
    if |parts| == 1 {
      assert IndexOf(parts[0], c).None?;
    } else {
      var a := parts[0];
      var rest := Join(parts[1..], [c]);
      assert Join(parts, [c]) == a + [c] + rest;
      SplitCons(a, c, rest);
      assert forall i :: 0 <= i < |parts[1..]| ==> parts[1..][i] == parts[i + 1];
      SplitJoin(parts[1..], c);
      assert parts == [a] + parts[1..];
    }
  }

  /** Text before a first separator is split off as the first piece. */
  lemma SplitCons(a: string, c: char, rest: string)
    requires c !in a
    ensures Split(a + [c] + rest, c) == [a] + Split(rest, c)
  {
    var s := a + [c] + rest;
    IndexOfAfter(a, c, rest);
    assert s[..|a|] == a;
    assert s[|a| + 1..] == rest;
  }

  lemma IndexOfAfter(a: string, c: char, rest: string)
    requires c !in a
    ensures IndexOf(a + [c] + rest, c) == Some(|a|)
  {
    var s := a + [c] + rest;
    var r := IndexOf(s, c);
    assert s[|a|] == c;
    assert s[..|a|] == a;
  }

  /** The first piece of a split is the text before the first separator. */
  lemma SplitHead(a: string, c: char, rest: string)
    requires c !in a
    ensures Split(a + [c] + rest, c)[0] == a
  {
    IndexOfAfter(a, c, rest);
    assert (a + [c] + rest)[..|a|] == a;
  }

  /** `str::split_once` with a char. */
  function SplitOnce(s: string, c: char): (r: Option<(string, string)>)
    ensures r.None? <==> c !in s
    ensures r.Some? ==> s == r.value.0 + [c] + r.value.1 && c !in r.value.0
  {
    match IndexOf(s, c)
    case None => None
    case Some(i) => assert s == s[..i] + [c] + s[i + 1..]; Some((s[..i], s[i + 1..]))
  }

  /** Splitting at the first `c` recovers the two sides when the left one has no `c`. */
  lemma SplitOnceAt(a: string, c: char, b: string)
    requires c !in a
    ensures SplitOnce(a + [c] + b, c) == Some((a, b))
  {
    IndexOfAfter(a, c, b);
    var s := a + [c] + b;
    assert s[..|a|] == a && s[|a| + 1..] == b;
  }

  function StripCr(l: string): string
  {
    if |l| > 0 && l[|l| - 1] == '\r' then l[..|l| - 1] else l
  }

  /**
   * `str::lines`: pieces split at '\n'; a '\n'-terminated piece loses one trailing '\r';
   * an empty final piece (input empty or ending in '\n') is dropped.
   */
  function Lines(s: string): seq<string>
  {
    var pieces := Split(s, '\n');
    var last := pieces[|pieces| - 1];
    var body := seq(|pieces| - 1, i requires 0 <= i < |pieces| - 1 => StripCr(pieces[i]));
    if last == "" then body else body + [last]
  }

  /** The last piece of `x + [c] + b` split at `c` is `b`, when `b` has no `c`. */
  lemma {:induction false} SplitLastPiece(x: string, c: char, b: string)
    requires c !in b
    ensures var ps := Split(x + [c] + b, c); ps[|ps| - 1] == b
    decreases |x|
  {
    var s := x + [c] + b;
    assert s[|x|] == c;
    var i := IndexOf(s, c).value;
    if i == |x| {
      assert s[i + 1..] == b;
    } else {
      assert s[i + 1..] == x[i + 1..] + [c] + b;
      SplitLastPiece(x[i + 1..], c, b);
    }
  }

  /** Text ending in a line break and then a non-empty line without one has that line as its last line. */
  lemma LastLine(a: string, l: string)
    requires '\n' !in l && l != ""
    ensures var ls := Lines(a + "\n" + l); |ls| > 0 && ls[|ls| - 1] == l
  {
    assert a + "\n" + l == a + ['\n'] + l;
    SplitLastPiece(a, '\n', l);
  }

  lemma {:induction false} ContainsPrefix(l: string, k: nat, sub: string)
    requires k <= |l| && Contains(l[..k], sub)
    ensures Contains(l, sub)
    decreases k
  {
    if !StartsWith(l[..k], sub) {
      assert l[..k][1..] == l[1..][..k - 1];
      ContainsPrefix(l[1..], k - 1, sub);
    } else {
      assert l[..|sub|] == l[..k][..|sub|];
    }
  }

  /** A line of `s` contains `sub` only if the piece it comes from does. */
  lemma LinesAvoid(s: string, sub: string)
    requires forall j :: 0 <= j < |Split(s, '\n')| ==> !Contains(Split(s, '\n')[j], sub)
    ensures forall i :: 0 <= i < |Lines(s)| ==> !Contains(Lines(s)[i], sub)
  {
    var pieces := Split(s, '\n');
    var ls := Lines(s);
    forall i | 0 <= i < |ls| ensures !Contains(ls[i], sub) {
      var p := pieces[i];
      assert ls[i] == StripCr(p) || ls[i] == p;
      if Contains(ls[i], sub) {
        assert ls[i] == p[..|ls[i]|];
        ContainsPrefix(p, |ls[i]|, sub);
      }
    }
  }

  /** No line has a line break in it. */
  lemma LinesPlainBreaks(s: string)
    ensures forall i :: 0 <= i < |Lines(s)| ==> '\n' !in Lines(s)[i]
  {
    var pieces := Split(s, '\n');
    var ls := Lines(s);
    forall i | 0 <= i < |ls| ensures '\n' !in ls[i] {
      assert ls[i] == StripCr(pieces[i]) || ls[i] == pieces[i];
      assert '\n' !in pieces[i];
    }
  }

  /** Lines that fit in a line-oriented file: no '\n' and no trailing '\r'. */
  predicate PlainLine(l: string)
  {
    '\n' !in l && !(|l| > 0 && l[|l| - 1] == '\r')
  }

  /** Joining with '\n' and terminating with '\n' is undone by `Lines`. */
  lemma LinesOfJoined(ls: seq<string>)
    requires |ls| > 0
    requires forall i :: 0 <= i < |ls| ==> PlainLine(ls[i])
    ensures Lines(Join(ls, "\n") + "\n") == ls
  {
    JoinAppendEmpty(ls, "\n");
    var ext := ls + [""];
    forall i | 0 <= i < |ext| ensures '\n' !in ext[i] {
      if i < |ls| { assert PlainLine(ls[i]); }
    }
    SplitJoin(ext, '\n');
    LinesOfPieces(Join(ext, "\n"), ls);
  }

  lemma LinesOfPieces(s: string, ls: seq<string>)
    requires Split(s, '\n') == ls + [""]
    requires forall i :: 0 <= i < |ls| ==> PlainLine(ls[i])
    ensures Lines(s) == ls
  {
    var pieces := Split(s, '\n');
    var body := seq(|pieces| - 1, i requires 0 <= i < |pieces| - 1 => StripCr(pieces[i]));
    assert |body| == |ls|;
    forall i | 0 <= i < |ls| ensures body[i] == ls[i] {
      assert pieces[i] == ls[i];
      assert PlainLine(ls[i]);
    }
  }

  lemma {:induction false} JoinAppendEmpty(ls: seq<string>, sep: string)
    requires |ls| > 0
    ensures Join(ls + [""], sep) == Join(ls, sep) + sep
    decreases |ls|
  {
    if |ls| == 1 {
      assert (ls + [""])[1..] == [""];
    } else {
      assert (ls + [""])[1..] == ls[1..] + [""];
      JoinAppendEmpty(ls[1..], sep);
    }
  }

  lemma JoinSnoc(ps: seq<string>, x: string, sep: string)
    requires |ps| >= 1
    ensures Join(ps + [x], sep) == Join(ps, sep) + sep + x
  {
    if |ps| > 1 {
      assert (ps + [x])[1..] == ps[1..] + [x];
      JoinSnoc(ps[1..], x, sep);
    }
  }

  /** Text built by pushing each line followed by '\n'. */
  function Unlines(ls: seq<string>): string
  {
    if ls == [] then "" else Unlines(ls[..|ls| - 1]) + ls[|ls| - 1] + "\n"
  }

  lemma {:induction false} UnlinesJoin(ls: seq<string>)
    requires ls != []
    ensures Unlines(ls) == Join(ls, "\n") + "\n"
  {
    var init := ls[..|ls| - 1];
    if init == [] {
      assert ls == [ls[0]];
    } else {
      UnlinesJoin(init);
      assert ls == init + [ls[|ls| - 1]];
      JoinSnoc(init, ls[|ls| - 1], "\n");
    }
  }

  /** `str::lines` gives back the pushed lines. */
  lemma LinesOfUnlines(ls: seq<string>)
    requires forall i :: 0 <= i < |ls| ==> PlainLine(ls[i])
    ensures Lines(Unlines(ls)) == ls
  {
    if ls != [] {
      UnlinesJoin(ls);
      LinesOfJoined(ls);
    } else {
      assert Split("", '\n') == [""];
    }
  }

  /** A pattern holding a character the text lacks does not occur in it. */
  lemma {:induction false} MissingCharNotContained(s: string, sub: string, c: char)
    requires c in sub && c !in s
    ensures !Contains(s, sub)
    decreases |s|
  {
    if |s| > 0 {
      MissingCharNotContained(s[1..], sub, c);
    }
  }

  lemma {:induction false} ContainsMiddle(a: string, b: string, c: string)
    ensures Contains(a + b + c, b)
    decreases |a|
  {
    if a == [] {
      assert (a + b + c)[..|b|] == b;
    } else {
      ContainsMiddle(a[1..], b, c);
      assert (a + b + c)[1..] == a[1..] + b + c;
    }
  }

  /** The longest prefix of `s` without whitespace. */
  function TakeWord(s: string): (w: string)
    ensures |w| <= |s| && w == s[..|w|]
    ensures |s| > 0 && !IsWhitespace(s[0]) ==> |w| > 0
    ensures forall i :: 0 <= i < |w| ==> !IsWhitespace(w[i])
    ensures |w| == |s| || IsWhitespace(s[|w|])
  {
    if |s| > 0 && !IsWhitespace(s[0]) then [s[0]] + TakeWord(s[1..]) else []
  }

  /** `str::split_whitespace`: the maximal non-whitespace runs, in order. */
  function SplitWhitespace(s: string): (r: seq<string>)
    ensures forall i :: 0 <= i < |r| ==> |r[i]| > 0
    decreases |s|
  {
    var t := TrimStart(s);
    if t == [] then [] else
      assert !IsWhitespace(t[0]);
      var w := TakeWord(t);
      var rest := SplitWhitespace(t[|w|..]);
      assert forall i :: 0 <= i < |[w] + rest| ==> |([w] + rest)[i]| > 0 by {
        forall i | 0 <= i < |[w] + rest| ensures |([w] + rest)[i]| > 0 {
          if i > 0 {
            assert ([w] + rest)[i] == rest[i - 1];
          }
        }
      }
      [w] + rest
  }

  /** `str::replace` with a non-empty pattern, left to right, non-overlapping. */
  function Replace(s: string, from: string, to: string): string
    requires |from| > 0
    decreases |s|
  {
    if StartsWith(s, from) then to + Replace(s[|from|..], from, to)
    else if |s| == 0 then ""
    else [s[0]] + Replace(s[1..], from, to)
  }

  lemma {:induction false} ReplaceAbsent(s: string, from: string, to: string)
    requires |from| > 0 && !Contains(s, from)
    ensures Replace(s, from, to) == s
    decreases |s|
  {
    if |s| > 0 {
      ReplaceAbsent(s[1..], from, to);
      assert s == [s[0]] + s[1..];
    }
  }

  /** Replacing a one-character pattern by one character maps the string character by character. */
  lemma {:induction false} ReplaceChar(s: string, a: char, b: char)
    ensures var r := Replace(s, [a], [b]);
      |r| == |s| && forall i :: 0 <= i < |s| ==> r[i] == (if s[i] == a then b else s[i])
    decreases |s|
  {
    if |s| > 0 {
      ReplaceChar(s[1..], a, b);
    }
  }

  /** Number of occurrences of `c` (`str::matches(c).count()`). */
  function CountChar(s: string, c: char): nat
  {
    if |s| == 0 then 0 else (if s[0] == c then 1 else 0) + CountChar(s[1..], c)
  }

  // ---------------------------------------------------------------------------
  // Lexicographic order (Rust `Ord` for `str`)

  predicate StrLt(a: string, b: string)
    decreases |a|
  {
    if |a| == 0 then |b| > 0
    else if |b| == 0 then false
    else if a[0] < b[0] then true
    else if a[0] > b[0] then false
    else StrLt(a[1..], b[1..])
  }

  lemma {:induction false} StrLtIrreflexive(a: string)
    ensures !StrLt(a, a)
    decreases |a|
  {
    if |a| > 0 { StrLtIrreflexive(a[1..]); }
  }

  lemma {:induction false} StrLtAsymmetric(a: string, b: string)
    ensures StrLt(a, b) ==> !StrLt(b, a)
    decreases |a|
  {
    if |a| > 0 && |b| > 0 { StrLtAsymmetric(a[1..], b[1..]); }
  }

  lemma {:induction false} StrLtTransitive(a: string, b: string, c: string)
    requires StrLt(a, b) && StrLt(b, c)
    ensures StrLt(a, c)
    decreases |a|
  {
    if |a| > 0 && |b| > 0 && |c| > 0 && a[0] == b[0] && b[0] == c[0] {
      StrLtTransitive(a[1..], b[1..], c[1..]);
    }
  }

  lemma {:induction false} StrLtTotal(a: string, b: string)
    ensures a == b || StrLt(a, b) || StrLt(b, a)
    decreases |a|
  {
    if |a| > 0 && |b| > 0 && a[0] == b[0] {
      StrLtTotal(a[1..], b[1..]);
      if a[1..] == b[1..] { assert a == [a[0]] + a[1..] && b == [b[0]] + b[1..]; }
    }
  }

  /** `a <= b` in the string order. */
  predicate StrLe(a: string, b: string)
  {
    !StrLt(b, a)
  }

  lemma StrLeTransitive(a: string, b: string, c: string)
    requires StrLe(a, b) && StrLe(b, c)
    ensures StrLe(a, c)
  {
    StrLtTotal(a, b);
    StrLtTotal(b, c);
    if a != b && b != c {
      StrLtTransitive(a, b, c);
      StrLtAsymmetric(a, c);
    }
  }

  predicate SortedStrings(s: seq<string>)
  {
    forall i, j :: 0 <= i < j < |s| ==> StrLe(s[i], s[j])
  }

  lemma SortedPrepend(x: string, s: seq<string>)
    requires SortedStrings(s)
    requires |s| == 0 || StrLe(x, s[0])
    ensures SortedStrings([x] + s)
  {
    var r := [x] + s;
    forall i, j | 0 <= i < j < |r| ensures StrLe(r[i], r[j]) {
      if i == 0 && j > 1 {
        StrLeTransitive(x, s[0], s[j - 1]);
      }
    }
  }

  /** Insertion of `x` into a sorted sequence. */
  function InsertString(x: string, s: seq<string>): (r: seq<string>)
    requires SortedStrings(s)
    ensures SortedStrings(r)
    ensures multiset(r) == multiset(s) + multiset{x}
  {
    if |s| == 0 then [x]
    else if StrLe(x, s[0]) then
      SortedPrepend(x, s);
      [x] + s
    else
      var rest := InsertString(x, s[1..]);
      assert s == [s[0]] + s[1..];
      assert rest[0] in multiset(s[1..]) + multiset{x};
      StrLtAsymmetric(s[0], x);
      SortedPrepend(s[0], rest);
      [s[0]] + rest
  }

  /** `[String]::sort`: ascending, a permutation of the input. */
  function SortStrings(s: seq<string>): (r: seq<string>)
    ensures SortedStrings(r)
    ensures multiset(r) == multiset(s)
  {
    if |s| == 0 then []
    else
      assert s == [s[0]] + s[1..];
      InsertString(s[0], SortStrings(s[1..]))
  }

  predicate NoDuplicates(s: seq<string>)
  {
    forall i, j :: 0 <= i < j < |s| ==> s[i] != s[j]
  }

  /** A sequence has no duplicates exactly when every multiplicity is at most one. */
  lemma {:induction false} NoDuplicatesCounts(s: seq<string>)
    ensures NoDuplicates(s) <==> forall x :: multiset(s)[x] <= 1
  {
    if |s| > 0 {
      var p, last := s[..|s| - 1], s[|s| - 1];
      assert s == p + [last];
      assert multiset(s) == multiset(p) + multiset{last};
      NoDuplicatesCounts(p);
      if NoDuplicates(s) {
        assert NoDuplicates(p);
        assert last !in p by {
          forall i | 0 <= i < |p| ensures p[i] != last {
            assert s[i] != s[|s| - 1];
          }
        }
        forall x ensures multiset(s)[x] <= 1 {
          assert multiset(p)[x] <= 1;
        }
      } else {
        var i, j :| 0 <= i < j < |s| && s[i] == s[j];
        if j < |s| - 1 {
          assert p[i] == p[j];
          assert !NoDuplicates(p);
          var x :| multiset(p)[x] > 1;
          assert multiset(s)[x] > 1;
        } else {
          assert p[i] == last;
          assert multiset(s)[last] > 1;
        }
      }
    }
  }

  /** The elements of a set in some order (the iteration order of a hash map or set). */
  method Enumerate(s: set<string>) returns (ks: seq<string>)
    ensures NoDuplicates(ks)
    ensures forall k :: k in ks <==> k in s
  {
    ks := [];
    var todo := s;
    while todo != {}
      invariant todo <= s
      invariant forall k :: k in ks <==> k in s && k !in todo
      invariant NoDuplicates(ks)
      decreases |todo|
    {
      var h :| h in todo;
      ks := ks + [h];
      todo := todo - {h};
    }
  }

  /** A list without duplicates is as long as the set of its elements. */
  lemma {:induction false} DistinctLength(ks: seq<string>, s: set<string>)
    requires NoDuplicates(ks)
    requires forall k :: k in ks <==> k in s
    ensures |ks| == |s|
  {
    if |ks| > 0 {
      var p, last := ks[..|ks| - 1], ks[|ks| - 1];
      assert ks == p + [last];
      assert NoDuplicates(p);
      assert last !in p by {
        forall i | 0 <= i < |p| ensures p[i] != last {
          assert ks[i] != ks[|ks| - 1];
        }
      }
      DistinctLength(p, s - {last});
    } else {
      assert s == {};
    }
  }

  // ---------------------------------------------------------------------------
  // Decimal numbers

  function DigitChar(d: nat): char
    requires d < 10
  {
    ('0' as int + d) as char
  }

  /** Decimal rendering of `n` (`format!("{}", n)`). */
  function NatToString(n: nat): (r: string)
    ensures |r| > 0
    ensures forall i :: 0 <= i < |r| ==> IsDigit(r[i])
  {
    if n < 10 then [DigitChar(n)] else NatToString(n / 10) + [DigitChar(n % 10)]
  }

  /** `format!("{:0w}", n)`: left-padded with zeros to at least `w` digits. */
  function ZeroPad(n: nat, w: nat): (r: string)
    ensures |r| >= w
    ensures forall i :: 0 <= i < |r| ==> IsDigit(r[i])
  {
    var d := NatToString(n);
    if |d| >= w then d else seq(w - |d|, _ => '0') + d
  }

  predicate AllDigits(s: string)
  {
    forall i :: 0 <= i < |s| ==> IsDigit(s[i])
  }

  /** The value of a string of decimal digits. */
  function DigitsValue(s: string): nat
    requires AllDigits(s)
  {
    if |s| == 0 then 0 else DigitsValue(s[..|s| - 1]) * 10 + (s[|s| - 1] as int - '0' as int)
  }

  /**
   * `str::parse` for an unsigned integer type whose largest value is `max`:
   * an optional '+', then one or more ASCII digits, in range.
   */
  function ParseUnsigned(s: string, max: nat): (r: Option<nat>)
    ensures r.Some? ==> r.value <= max
  {
    var d := if |s| > 0 && s[0] == '+' then s[1..] else s;
    if |d| > 0 && AllDigits(d) && DigitsValue(d) <= max then Some(DigitsValue(d)) else None
  }

  const U16_MAX: nat := 65535
  const U32_MAX: nat := 4294967295

  lemma {:induction false} DigitsOfNat(n: nat)
    ensures AllDigits(NatToString(n)) && DigitsValue(NatToString(n)) == n
  {
    if n >= 10 {
      DigitsOfNat(n / 10);
      var s := NatToString(n);
      assert s[..|s| - 1] == NatToString(n / 10);
    }
  }

  lemma {:induction false} LeadingZerosValue(z: nat, d: string)
    requires AllDigits(d)
    ensures AllDigits(seq(z, _ => '0') + d)
    ensures DigitsValue(seq(z, _ => '0') + d) == DigitsValue(d)
    decreases |d|
  {
    var s := seq(z, _ => '0') + d;
    if |d| == 0 {
      assert s == seq(z, _ => '0');
      ZerosValue(z);
    } else {
      assert s[..|s| - 1] == seq(z, _ => '0') + d[..|d| - 1];
      LeadingZerosValue(z, d[..|d| - 1]);
    }
  }

  lemma {:induction false} ZerosValue(z: nat)
    ensures AllDigits(seq(z, _ => '0')) && DigitsValue(seq(z, _ => '0')) == 0
  {
    if z > 0 {
      assert seq(z, _ => '0')[..z - 1] == seq(z - 1, _ => '0');
      ZerosValue(z - 1);
    }
  }

  /** Parsing undoes zero-padded rendering. */
  lemma ParseZeroPad(n: nat, w: nat, max: nat)
    requires n <= max
    ensures ParseUnsigned(ZeroPad(n, w), max) == Some(n)
  {
    var d := NatToString(n);
    DigitsOfNat(n);
    if |d| < w {
      LeadingZerosValue(w - |d|, d);
    }
    var r := ZeroPad(n, w);
    assert r[0] != '+';
  }

  /** Parsing undoes rendering. */
  lemma ParseNatToString(n: nat, max: nat)
    requires n <= max
    ensures ParseUnsigned(NatToString(n), max) == Some(n)
  {
    DigitsOfNat(n);
    assert NatToString(n)[0] != '+';
  }
}
