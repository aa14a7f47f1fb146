/**
  The text processing the FTP protocol handler applies to server replies
  (replies as in section 4.2 of RFC 959: a three-digit code, then text).
  Python's string operations are written out: `sep in s`, `s.split(sep, 1)`,
  `s.strip()`, `s.split()` and `s.split("\n")`.
 */
module FtpText {
  import opened Wrappers

  /** Python's notion of whitespace (`str.isspace`), used by `strip()` and `split()`. */
  predicate IsSpace(c: char) {
    ('\t' <= c <= '\r') || ('\U{1C}' <= c <= ' ') || c == '\U{85}' || c == '\U{A0}'
    || c == '\U{1680}' || ('\U{2000}' <= c <= '\U{200A}') || c == '\U{2028}' || c == '\U{2029}'
    || c == '\U{202F}' || c == '\U{205F}' || c == '\U{3000}'
  }

  predicate AllSpace(s: string) {
    forall i :: 0 <= i < |s| ==> IsSpace(s[i])
  }

  /** A token of `split()`: non-empty and free of whitespace. */
  predicate IsWord(w: string) {
    w != [] && forall i :: 0 <= i < |w| ==> !IsSpace(w[i])
  }

  // ---------------------------------------------------------------------------
  // Sequence facts, each proved on its own so that larger proofs can cite them
  // ---------------------------------------------------------------------------

  lemma {:induction false} AppendAssoc<T>(x: seq<T>, y: seq<T>, z: seq<T>)
    ensures x + (y + z) == x + y + z
  {
  }

  lemma {:induction false} AppendEmpty<T>(x: seq<T>)
    ensures [] + x == x && x + [] == x
  {
  }

  lemma {:induction false} SliceOfAppend<T>(a: seq<T>, t: seq<T>, n: nat)
    requires n <= |a|
    ensures (a + t)[..n] == a[..n] && (a + t)[n..] == a[n..] + t
  {
  }

  lemma {:induction false} SliceOfSlice<T>(s: seq<T>, k: nat, m: nat)
    requires k + m <= |s|
    ensures s[k..][..m] == s[k..k + m] && s[k..][m..] == s[k + m..]
  {
  }

  // ---------------------------------------------------------------------------
  // Substring search: `pat in s` and the split point of `s.split(pat, 1)`
  // ---------------------------------------------------------------------------

  predicate OccursAt(s: string, pat: string, j: int) {
    0 <= j && j + |pat| <= |s| && s[j..j + |pat|] == pat
  }

  /** `j` is the leftmost occurrence of `pat` in `s`. */
  predicate FirstOccurrence(s: string, pat: string, j: int) {
    OccursAt(s, pat, j) && forall i :: 0 <= i < j ==> !OccursAt(s, pat, i)
  }

  /** The index of the leftmost occurrence of `pat` in `s`, if any (Python's `s.find(pat)`). */
  function FindFirst(s: string, pat: string): (r: Option<nat>)
    ensures r.Some? ==> FirstOccurrence(s, pat, r.value)
    ensures r.None? ==> forall j :: !OccursAt(s, pat, j)
    decreases |s|
  {
    if |s| < |pat| then None
    else if s[..|pat|] == pat then Some(0)
    else
      match FindFirst(s[1..], pat)
      case None =>
        assert forall j :: OccursAt(s, pat, j) && j > 0 ==> OccursAt(s[1..], pat, j - 1) by {
          forall j | OccursAt(s, pat, j) && j > 0 ensures OccursAt(s[1..], pat, j - 1) {
            assert s[1..][j - 1..j - 1 + |pat|] == s[j..j + |pat|];
          }
        }
        None
      case Some(k) =>
        assert s[1..][k..k + |pat|] == s[k + 1..k + 1 + |pat|];
        assert forall i :: 0 < i < k + 1 && OccursAt(s, pat, i) ==> OccursAt(s[1..], pat, i - 1) by {
          forall i | 0 < i < k + 1 && OccursAt(s, pat, i) ensures OccursAt(s[1..], pat, i - 1) {
            assert s[1..][i - 1..i - 1 + |pat|] == s[i..i + |pat|];
          }
        }
        Some(k + 1)
  }

  /** Python's `pat in s`: a substring test anywhere in `s`, not a prefix test. */
  function Contains(s: string, pat: string): (b: bool)
    ensures b <==> exists j :: OccursAt(s, pat, j)
  {
    FindFirst(s, pat).Some?
  }

  /** The success test on a login reply: the code 230 (user logged in) anywhere in it, as a substring. */
  function LoginAccepted(resp: string): (b: bool)
    ensures b <==> exists j :: OccursAt(resp, "230", j)
  {
    Contains(resp, "230")
  }

  // ---------------------------------------------------------------------------
  // `strip()`
  // ---------------------------------------------------------------------------

  /** `s.lstrip()`: what remains once the leading whitespace is gone. */
  function TrimStart(s: string): (r: string)
    ensures |r| <= |s| && r == s[|s| - |r|..]
    ensures AllSpace(s[..|s| - |r|])
    ensures r == [] || !IsSpace(r[0])
    decreases |s|
  {
    if s != [] && IsSpace(s[0]) then
      var r := TrimStart(s[1..]);
      assert s[..|s| - |r|] == [s[0]] + s[1..][..|s| - 1 - |r|];
      r
    else s
  }

  /** `s.rstrip()`: what remains once the trailing whitespace is gone. */
  function TrimEnd(s: string): (r: string)
    ensures |r| <= |s| && r == s[..|r|]
    ensures AllSpace(s[|r|..])
    ensures r == [] || !IsSpace(r[|r| - 1])
    decreases |s|
  {
    if s != [] && IsSpace(s[|s| - 1]) then
      var r := TrimEnd(s[..|s| - 1]);
      assert s[|r|..] == s[..|s| - 1][|r|..] + [s[|s| - 1]];
      r
    else s
  }

  /**
    `s.strip()`: the result is a slice of `s` preceded and followed only by
    whitespace, and it neither starts nor ends with whitespace.
   */
  function Strip(s: string): (r: string)
    ensures exists k :: 0 <= k <= |s| - |r| && s[k..k + |r|] == r && AllSpace(s[..k]) && AllSpace(s[k + |r|..])
    ensures r == [] || (!IsSpace(r[0]) && !IsSpace(r[|r| - 1]))
  {
    var t := TrimStart(s);
    var r := TrimEnd(t);
    var k := |s| - |t|;
    SliceOfSlice(s, k, |r|);
    r
  }

  lemma {:induction false} TrimStartSkips(a: string, t: string)
    requires AllSpace(a)
    requires t == [] || !IsSpace(t[0])
    ensures TrimStart(a + t) == t
    decreases |a|
  {
    if a != [] {
      assert (a + t)[1..] == a[1..] + t;
      TrimStartSkips(a[1..], t);
    } else {
      assert a + t == t;
    }
  }

  lemma {:induction false} TrimEndSkips(t: string, b: string)
    requires AllSpace(b)
    requires t == [] || !IsSpace(t[|t| - 1])
    ensures TrimEnd(t + b) == t
    decreases |b|
  {
    if b != [] {
      assert (t + b)[..|t + b| - 1] == t + b[..|b| - 1];
      TrimEndSkips(t, b[..|b| - 1]);
    } else {
      assert t + b == t;
    }
  }

  /** The partner of `Strip`: any text framed by whitespace strips to exactly that text. */
  lemma {:induction false} StripFramed(a: string, m: string, b: string)
    requires AllSpace(a) && AllSpace(b)
    requires m == [] || (!IsSpace(m[0]) && !IsSpace(m[|m| - 1]))
    ensures Strip(a + m + b) == m
  {
    if m == [] {
      assert a + m + b == (a + b) + [];
      assert AllSpace(a + b);
      TrimStartSkips(a + b, []);
    } else {
      assert a + m + b == a + (m + b);
      TrimStartSkips(a, m + b);
      TrimEndSkips(m, b);
    }
  }

  lemma {:induction false} StripTrailing(m: string, b: string)
    requires AllSpace(b)
    requires m == [] || (!IsSpace(m[0]) && !IsSpace(m[|m| - 1]))
    ensures Strip(m + b) == m
  {
    assert [] + m + b == m + b;
    StripFramed([], m, b);
  }

  /** Text that neither starts nor ends with whitespace is its own `strip()`. */
  lemma {:induction false} StripOfStripped(m: string)
    requires m == [] || (!IsSpace(m[0]) && !IsSpace(m[|m| - 1]))
    ensures Strip(m) == m
  {
    AppendEmpty(m);
    TrimStartSkips([], m);
    TrimEndSkips(m, []);
  }

  lemma {:induction false} StripIdempotent(s: string)
    ensures Strip(Strip(s)) == Strip(s)
  {
    StripOfStripped(Strip(s));
  }

  // ---------------------------------------------------------------------------
  // Banner extraction: the text after the first "220", stripped
  // ---------------------------------------------------------------------------

  /**
    The remote version read from the server's welcome text: the text after the
    first "220", stripped of surrounding whitespace. None where the source
    faults: without a "220" the split yields one element and `[1]` raises
    IndexError.
   */
  function Banner(welcome: string): (r: Option<string>)
    ensures r.None? <==> !Contains(welcome, "220")
    ensures forall k :: FirstOccurrence(welcome, "220", k) ==> r == Some(Strip(welcome[k + 3..]))
  {
    match FindFirst(welcome, "220")
    case None => None
    case Some(k) =>
      FirstOccurrenceUnique(welcome, "220", k);
      Some(Strip(welcome[k + 3..]))
  }

  lemma FirstOccurrenceUnique(s: string, pat: string, k: int)
    requires FirstOccurrence(s, pat, k)
    ensures forall j :: FirstOccurrence(s, pat, j) ==> j == k
  {
  }

  /** "220" overlaps no shifted copy of itself, so no occurrence can straddle `a` and a following "220". */
  lemma {:induction false} NoStraddle(a: string, b: string, j: int)
    requires !Contains(a, "220")
    requires 0 <= j < |a|
    ensures !OccursAt(a + "220" + b, "220", j)
  {
    var s := a + "220" + b;
    if j + 3 <= |a| {
      assert s[j..j + 3] == a[j..j + 3];
      assert !OccursAt(a, "220", j);
    } else {
      // an occurrence would end inside the appended "220", whose third
      // character from the start of the occurrence is a '2', not the '0'
      assert s[j + 2] == '2';
      assert s[j..j + 3][2] == s[j + 2];
    }
  }

  /** Only the first "220" splits: later ones stay in the banner. */
  lemma {:induction false} BannerAfterFirst(a: string, b: string)
    requires !Contains(a, "220")
    ensures Banner(a + "220" + b) == Some(Strip(b))
  {
    var s := a + "220" + b;
    assert s[|a|..|a| + 3] == "220";
    forall j | 0 <= j < |a| ensures !OccursAt(s, "220", j) {
      NoStraddle(a, b, j);
    }
    assert FirstOccurrence(s, "220", |a|);
    assert s[|a| + 3..] == b;
  }

  /** A welcome text that starts with the code: the banner is the rest, stripped. */
  lemma {:induction false} BannerOfReply(t: string)
    ensures Banner("220" + t) == Some(Strip(t))
  {
    assert !Contains([], "220");
    BannerAfterFirst([], t);
    assert [] + "220" + t == "220" + t;
  }

  /**
    A reply "220" + version + trailing whitespace yields exactly `version`,
    whatever non-whitespace it starts with (a '-' continuation mark included).
   */
  lemma {:induction false} BannerOfFramed(version: string, tail: string)
    requires AllSpace(tail)
    requires version == [] || (!IsSpace(version[0]) && !IsSpace(version[|version| - 1]))
    ensures Banner("220" + (version + tail)) == Some(version)
  {
    BannerOfReply(version + tail);
    StripTrailing(version, tail);
  }

  /** The banner of "220-Welcome to test FTP  " keeps its leading '-'. */
  lemma {:induction false} BannerExample(welcome: string)
    requires welcome == "220-Welcome to test FTP  "
    ensures Banner(welcome) == Some("-Welcome to test FTP")
  {
    var version, tail := "-Welcome to test FTP", "  ";
    assert welcome == "220" + (version + tail);
    BannerOfFramed(version, tail);
  }

  // ---------------------------------------------------------------------------
  // `s.split()`: the whitespace-separated tokens of a line
  // ---------------------------------------------------------------------------

  /** The length of the leading run of non-whitespace characters. */
  function WordEnd(s: string): (n: nat)
    ensures n <= |s|
    ensures forall i :: 0 <= i < n ==> !IsSpace(s[i])
    ensures n == |s| || IsSpace(s[n])
    decreases |s|
  {
    if s == [] || IsSpace(s[0]) then 0 else 1 + WordEnd(s[1..])
  }

  /** Python's `s.split()` with no separator: maximal runs of non-whitespace, in order. */
  function Words(s: string): (r: seq<string>)
    ensures forall i :: 0 <= i < |r| ==> IsWord(r[i])
    decreases |s|
  {
    if s == [] then []
    else if IsSpace(s[0]) then Words(s[1..])
    else
      var n := WordEnd(s);
      [s[..n]] + Words(s[n..])
  }

  /** Concatenation of a sequence of strings. */
  function Concat(ws: seq<string>): string {
    if ws == [] then [] else ws[0] + Concat(ws[1..])
  }

  /** The non-whitespace characters of `s`, in order. */
  function NonSpace(s: string): (r: string)
    ensures forall i :: 0 <= i < |r| ==> !IsSpace(r[i])
  {
    if s == [] then [] else (if IsSpace(s[0]) then [] else [s[0]]) + NonSpace(s[1..])
  }

  /** `sep.join(parts)`. */
  function JoinWith(parts: seq<string>, sep: string): string {
    if parts == [] then []
    else if |parts| == 1 then parts[0]
    else parts[0] + sep + JoinWith(parts[1..], sep)
  }

  lemma {:induction false} NonSpaceAppend(a: string, b: string)
    ensures NonSpace(a + b) == NonSpace(a) + NonSpace(b)
    decreases |a|
  {
    if a != [] {
      assert (a + b)[1..] == a[1..] + b;
      NonSpaceAppend(a[1..], b);
    } else {
      assert a + b == b;
    }
  }

  lemma {:induction false} NonSpaceOfWord(w: string)
    requires forall i :: 0 <= i < |w| ==> !IsSpace(w[i])
    ensures NonSpace(w) == w
    decreases |w|
  {
    if w != [] {
      NonSpaceOfWord(w[1..]);
    }
  }

  /** No character is lost or invented by `split()`: the tokens spell the non-whitespace of the input. */
  lemma {:induction false} WordsKeepText(s: string)
    ensures Concat(Words(s)) == NonSpace(s)
    decreases |s|
  {
    if s == [] {
    } else if IsSpace(s[0]) {
      WordsKeepText(s[1..]);
    } else {
      var n := WordEnd(s);
      assert s == s[..n] + s[n..];
      WordsKeepText(s[n..]);
      NonSpaceAppend(s[..n], s[n..]);
      NonSpaceOfWord(s[..n]);
      assert ([s[..n]] + Words(s[n..]))[1..] == Words(s[n..]);
    }
  }

  /** A non-whitespace prefix ended by whitespace or by the end of `s` is the one `WordEnd` measures. */
  lemma WordEndUnique(s: string, n: nat)
    requires n <= |s|
    requires forall i :: 0 <= i < n ==> !IsSpace(s[i])
    requires n == |s| || IsSpace(s[n])
    ensures WordEnd(s) == n
  {
  }

  lemma {:induction false} WordEndOfAppend(a: string, b: string)
    requires b == [] || IsSpace(b[0])
    ensures WordEnd(a + b) == WordEnd(a)
  {
    var n := WordEnd(a);
    var s := a + b;
    assert forall i :: 0 <= i < n ==> !IsSpace(s[i]);
    assert n == |s| || IsSpace(s[n]);
    WordEndUnique(s, n);
  }

  /** A whitespace character separates tokens: `split()` of `a + c + b` is that of `a` followed by that of `b`. */
  lemma {:induction false} WordsAtSpace(a: string, c: char, b: string)
    requires IsSpace(c)
    ensures Words(a + [c] + b) == Words(a) + Words(b)
    decreases |a|
  {
    if a == [] {
      assert (a + [c] + b)[1..] == b;
    } else if IsSpace(a[0]) {
      assert (a + [c] + b)[1..] == a[1..] + [c] + b;
      WordsAtSpace(a[1..], c, b);
    } else {
      var n := WordEnd(a);
      WordsAtSpace(a[n..], c, b);
      WordsAtSpaceStep(a, c, b, n);
    }
  }

  /** The step of `WordsAtSpace` when `a` opens with a token: that token is split off first on both sides. */
  lemma {:induction false} WordsAtSpaceStep(a: string, c: char, b: string, n: nat)
    requires IsSpace(c) && a != [] && !IsSpace(a[0]) && n == WordEnd(a)
    requires Words(a[n..] + [c] + b) == Words(a[n..]) + Words(b)
    ensures Words(a + [c] + b) == Words(a) + Words(b)
  {
    var w, rest := a[..n], a[n..];
    WordsAfterToken(a, [c] + b, n);
    AppendAssoc(a, [c], b);
    AppendAssoc(rest, [c], b);
    WordsOfTokenStart(a);
    AppendAssoc([w], Words(rest), Words(b));
  }

  /** A token that `t` cannot extend (it opens with whitespace) is split off first. */
  lemma {:induction false} WordsAfterToken(a: string, t: string, n: nat)
    requires a != [] && !IsSpace(a[0]) && n == WordEnd(a)
    requires t == [] || IsSpace(t[0])
    ensures Words(a + t) == [a[..n]] + Words(a[n..] + t)
  {
    WordEndOfAppend(a, t);
    WordsOfTokenStart(a + t);
    SliceOfAppend(a, t, n);
  }

  /** `split()` of a text that opens with a token: that token, then `split()` of the rest. */
  lemma {:induction false} WordsOfTokenStart(s: string)
    requires s != [] && !IsSpace(s[0])
    ensures Words(s) == [s[..WordEnd(s)]] + Words(s[WordEnd(s)..])
  {
  }

  lemma {:induction false} WordsOfWord(w: string)
    requires IsWord(w)
    ensures Words(w) == [w]
  {
    WordEndUnique(w, |w|);
    assert w[..|w|] == w && w[|w|..] == [];
  }

  /** `split()` inverts joining tokens with single spaces. */
  lemma {:induction false} WordsOfJoined(ws: seq<string>)
    requires forall i :: 0 <= i < |ws| ==> IsWord(ws[i])
    ensures Words(JoinWith(ws, " ")) == ws
    decreases |ws|
  {
    if ws == [] {
    } else if |ws| == 1 {
      WordsOfWord(ws[0]);
    } else {
      WordsOfJoined(ws[1..]);
      WordsOfWord(ws[0]);
      assert ws[0] + " " + JoinWith(ws[1..], " ") == ws[0] + [' '] + JoinWith(ws[1..], " ");
      WordsAtSpace(ws[0], ' ', JoinWith(ws[1..], " "));
      assert [ws[0]] + ws[1..] == ws;
    }
  }

  // ---------------------------------------------------------------------------
  // `s.split("\n")` and the HELP reply
  // ---------------------------------------------------------------------------

  /** Python's `s.split("\n")`: the pieces between newlines, at least one, possibly empty. */
  function SplitLines(s: string): (r: seq<string>)
    ensures |r| >= 1
    ensures forall i :: 0 <= i < |r| ==> '\n' !in r[i]
    ensures JoinWith(r, "\n") == s
    decreases |s|
  {
    if s == [] then [""]
    else
      var rest := SplitLines(s[1..]);
      if s[0] == '\n' then
        assert JoinWith([""] + rest, "\n") == "" + "\n" + JoinWith(rest, "\n");
        [""] + rest
      else
        var r := [[s[0]] + rest[0]] + rest[1..];
        assert r[1..] == rest[1..];
        assert |rest| > 1 ==> JoinWith(rest, "\n") == rest[0] + "\n" + JoinWith(rest[1..], "\n");
        assert JoinWith(r, "\n") == [s[0]] + JoinWith(rest, "\n");
        r
  }

  lemma {:induction false} SplitLinesPrefix(l: string, t: string)
    requires '\n' !in l
    ensures SplitLines(l + t) == [l + SplitLines(t)[0]] + SplitLines(t)[1..]
    decreases |l|
  {
    if l == [] {
      assert l + t == t;
      assert l + SplitLines(t)[0] == SplitLines(t)[0];
      assert [SplitLines(t)[0]] + SplitLines(t)[1..] == SplitLines(t);
    } else {
      assert (l + t)[1..] == l[1..] + t;
      SplitLinesPrefix(l[1..], t);
      assert [l[0]] + (l[1..] + SplitLines(t)[0]) == l + SplitLines(t)[0];
    }
  }

  /** `split("\n")` inverts `"\n".join(...)` on newline-free pieces. */
  lemma {:induction false} SplitLinesOfJoined(parts: seq<string>)
    requires |parts| >= 1
    requires forall i :: 0 <= i < |parts| ==> '\n' !in parts[i]
    ensures SplitLines(JoinWith(parts, "\n")) == parts
    decreases |parts|
  {
    if |parts| == 1 {
      SplitLinesPrefix(parts[0], "");
      assert parts[0] + "" == parts[0];
    } else {
      var t := "\n" + JoinWith(parts[1..], "\n");
      assert JoinWith(parts, "\n") == parts[0] + t;
      SplitLinesPrefix(parts[0], t);
      SplitLinesOfJoined(parts[1..]);
      assert t[1..] == JoinWith(parts[1..], "\n");
      assert SplitLines(t) == [""] + parts[1..];
      assert parts[0] + "" == parts[0];
      assert [parts[0]] + parts[1..] == parts;
    }
  }

  /** The lines of a reply without its first and last line (Python's `lines[1:-1]`). */
  function MiddleLines(reply: string): (r: seq<string>)
    ensures |SplitLines(reply)| < 3 ==> r == []
    ensures |SplitLines(reply)| >= 3 ==>
      (|r| == |SplitLines(reply)| - 2 && forall i :: 0 <= i < |r| ==> r[i] == SplitLines(reply)[i + 1])
  {
    var lines := SplitLines(reply);
    if |lines| < 2 then [] else lines[1..|lines| - 1]
  }

  /** The tokens of each line, flattened in order. */
  function FlatWords(lines: seq<string>): seq<string> {
    if lines == [] then [] else Words(lines[0]) + FlatWords(lines[1..])
  }

  /**
    `supported_commands`: the whitespace-separated tokens of every line of the
    HELP reply except the first and the last, in order.
   */
  function SupportedCommands(helpReply: string): (r: seq<string>)
    ensures |SplitLines(helpReply)| < 3 ==> r == []
    ensures forall i :: 0 <= i < |r| ==> IsWord(r[i])
  {
    FlatWordsAreWords(MiddleLines(helpReply));
    FlatWords(MiddleLines(helpReply))
  }

  lemma {:induction false} FlatWordsAreWords(lines: seq<string>)
    ensures forall i :: 0 <= i < |FlatWords(lines)| ==> IsWord(FlatWords(lines)[i])
    decreases |lines|
  {
    if lines != [] {
      FlatWordsAreWords(lines[1..]);
    }
  }

  /** Flattening per-line tokens equals tokenising the lines joined by newlines. */
  lemma {:induction false} FlatWordsOfJoined(lines: seq<string>)
    ensures FlatWords(lines) == Words(JoinWith(lines, "\n"))
    decreases |lines|
  {
    if |lines| == 1 {
      assert FlatWords(lines[1..]) == [];
    } else if |lines| > 1 {
      FlatWordsOfJoined(lines[1..]);
      assert lines[0] + "\n" + JoinWith(lines[1..], "\n") == lines[0] + ['\n'] + JoinWith(lines[1..], "\n");
      WordsAtSpace(lines[0], '\n', JoinWith(lines[1..], "\n"));
    }
  }

  /** The supported commands are exactly the tokens of the reply's inner text. */
  lemma {:induction false} SupportedCommandsAreInnerWords(helpReply: string)
    ensures SupportedCommands(helpReply) == Words(JoinWith(MiddleLines(helpReply), "\n"))
    ensures Concat(SupportedCommands(helpReply)) == NonSpace(JoinWith(MiddleLines(helpReply), "\n"))
  {
    FlatWordsOfJoined(MiddleLines(helpReply));
    WordsKeepText(JoinWith(MiddleLines(helpReply), "\n"));
  }

  // ---------------------------------------------------------------------------
  // Anonymous login
  // ---------------------------------------------------------------------------

  /** Anonymous credentials: user "anonymous" or empty, with an empty password or "-". */
  predicate IsAnonymousLogin(username: string, password: string): (b: bool)
    ensures b <==> (username, password) in {("anonymous", ""), ("anonymous", "-"), ("", ""), ("", "-")}
  {
    (username == "anonymous" || username == "") && (password == "" || password == "-")
  }
}
