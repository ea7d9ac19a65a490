/** The handful of Python `str` operations the bot and the handler rely on,
    stated over `string` (a sequence of Unicode code points, as in Python 3).
    The recursive functions keep quantifier-free contracts; what they mean is
    stated by the lemmas beside them. */
module PyStrings {

  /** `c.isspace()` for one code point: the characters Python's no-argument
      `split()` and `strip()` treat as whitespace. */
  predicate IsSpace(c: char) {
    c == ' ' || ('\t' <= c <= '\r') || ('\U{1C}' <= c <= '\U{1F}')
    || c == '\U{85}' || c == '\U{A0}' || c == '\U{1680}'
    || ('\U{2000}' <= c <= '\U{200A}') || c == '\U{2028}' || c == '\U{2029}'
    || c == '\U{202F}' || c == '\U{205F}' || c == '\U{3000}'
  }

  /** Every character of `s` has property `p`. */
  predicate AllChars(s: string, p: char -> bool) {
    forall k :: 0 <= k < |s| ==> p(s[k])
  }

  /** Every character of every string of `ws` has property `p`. */
  predicate AllWordChars(ws: seq<string>, p: char -> bool) {
    forall i :: 0 <= i < |ws| ==> AllChars(ws[i], p)
  }

  lemma AllCharsSlice(s: string, p: char -> bool, i: nat, j: nat)
    requires AllChars(s, p) && i <= j <= |s|
    ensures AllChars(s[i..j], p)
  {
    assert forall k :: 0 <= k < j - i ==> s[i..j][k] == s[i + k];
  }

  lemma AllWordCharsCons(w: string, ws: seq<string>, p: char -> bool)
    requires AllChars(w, p) && AllWordChars(ws, p)
    ensures AllWordChars([w] + ws, p)
  {
    var all := [w] + ws;
    forall i | 0 <= i < |all| ensures AllChars(all[i], p) {
      if i > 0 {
        assert all[i] == ws[i - 1];
      }
    }
  }

  /** The characters of `s` that are not whitespace, in order. */
  function NonSpace(s: string): (r: string)
    ensures |r| <= |s|
  {
    if s == [] then []
    else if IsSpace(s[0]) then NonSpace(s[1..])
    else [s[0]] + NonSpace(s[1..])
  }

  lemma {:induction false} NonSpaceConcat(a: string, b: string)
    ensures NonSpace(a + b) == NonSpace(a) + NonSpace(b)
  {
    if a == [] {
      assert a + b == b;
    } else {
      assert (a + b)[0] == a[0];
      assert (a + b)[1..] == a[1..] + b;
      NonSpaceConcat(a[1..], b);
    }
  }

  lemma {:induction false} NonSpaceOfSpaces(s: string)
    requires forall k :: 0 <= k < |s| ==> IsSpace(s[k])
    ensures NonSpace(s) == []
  {
    if s != [] {
      NonSpaceOfSpaces(s[1..]);
    }
  }

  /** The visible characters of every string of `xs`, in order. */
  function NonSpaceAll(xs: seq<string>): string {
    if xs == [] then [] else NonSpace(xs[0]) + NonSpaceAll(xs[1..])
  }

  /** Joining with a whitespace separator adds no visible character and
      loses none. */
  lemma {:induction false} NonSpaceJoin(sep: string, xs: seq<string>)
    requires NonSpace(sep) == []
    ensures NonSpace(JoinWith(sep, xs)) == NonSpaceAll(xs)
  {
    if |xs| == 1 {
      assert NonSpaceAll(xs) == NonSpace(xs[0]) + NonSpaceAll([]);
    } else if |xs| > 1 {
      NonSpaceJoin(sep, xs[1..]);
      NonSpaceConcat(xs[0], sep);
      NonSpaceConcat(xs[0] + sep, JoinWith(sep, xs[1..]));
    }
  }

  /** `s.lstrip()`. */
  function TrimStart(s: string): (r: string)
    ensures |r| <= |s|
    ensures r != [] ==> !IsSpace(r[0])
  {
    if s != [] && IsSpace(s[0]) then TrimStart(s[1..]) else s
  }

  /** `lstrip()` drops the leading whitespace and nothing else. */
  lemma {:induction false} TrimStartDropsSpaces(s: string)
    ensures TrimStart(s) == s[|s| - |TrimStart(s)|..]
    ensures forall k :: 0 <= k < |s| - |TrimStart(s)| ==> IsSpace(s[k])
  {
    if s != [] && IsSpace(s[0]) {
      TrimStartDropsSpaces(s[1..]);
    }
  }

  /** `s.rstrip()`. */
  function TrimEnd(s: string): (r: string)
    ensures |r| <= |s|
    ensures r != [] ==> !IsSpace(r[|r| - 1])
  {
    if s != [] && IsSpace(s[|s| - 1]) then TrimEnd(s[..|s| - 1]) else s
  }

  /** `rstrip()` drops the trailing whitespace and nothing else. */
  lemma {:induction false} TrimEndDropsSpaces(s: string)
    ensures TrimEnd(s) == s[..|TrimEnd(s)|]
    ensures forall k :: |TrimEnd(s)| <= k < |s| ==> IsSpace(s[k])
  {
    if s != [] && IsSpace(s[|s| - 1]) {
      TrimEndDropsSpaces(s[..|s| - 1]);
    }
  }

  /** `s.strip()`. */
  function Strip(s: string): (r: string)
    ensures |r| <= |s|
  {
    TrimEnd(TrimStart(s))
  }

  lemma {:induction false} TrimStartKeepsText(s: string)
    ensures NonSpace(TrimStart(s)) == NonSpace(s)
  {
    if s != [] && IsSpace(s[0]) {
      TrimStartKeepsText(s[1..]);
    }
  }

  lemma {:induction false} TrimEndKeepsText(s: string)
    ensures NonSpace(TrimEnd(s)) == NonSpace(s)
  {
    if s != [] && IsSpace(s[|s| - 1]) {
      var init := s[..|s| - 1];
      TrimEndKeepsText(init);
      assert s == init + [s[|s| - 1]];
      NonSpaceConcat(init, [s[|s| - 1]]);
      assert NonSpace([s[|s| - 1]]) == [] by {
        assert [s[|s| - 1]][1..] == [];
      }
    }
  }

  /** What `strip()` removes is whitespace only: the result has no
      whitespace at either end and holds every visible character of the
      input, in order. */
  lemma StripKeepsText(s: string)
    ensures Strip(s) != [] ==> !IsSpace(Strip(s)[0]) && !IsSpace(Strip(s)[|Strip(s)| - 1])
    ensures NonSpace(Strip(s)) == NonSpace(s)
  {
    var t := TrimStart(s);
    TrimStartKeepsText(s);
    TrimEndKeepsText(t);
    TrimEndDropsSpaces(t);
    var r := TrimEnd(t);
    if r != [] {
      assert r[0] == t[0];
    }
  }

  /** A string with no visible character strips to the empty string. */
  lemma StripOfBlank(s: string)
    requires NonSpace(s) == []
    ensures Strip(s) == []
  {
    StripKeepsText(s);
    NonSpaceOfVisibleHead(Strip(s));
  }

  lemma NonSpaceOfVisibleHead(r: string)
    requires r != [] ==> !IsSpace(r[0])
    ensures r != [] ==> NonSpace(r) != []
  {
  }

  /** `sep.join(ws)`. */
  function JoinWith(sep: string, ws: seq<string>): (r: string)
    ensures ws == [] ==> r == []
    ensures |ws| == 1 ==> r == ws[0]
  {
    if ws == [] then []
    else if |ws| == 1 then ws[0]
    else ws[0] + sep + JoinWith(sep, ws[1..])
  }

  /** `s.split(sep)` for a non-empty separator: cuts at the leftmost
      occurrences of `sep`, scanning from the left, keeping empty pieces. */
  function SplitOn(s: string, sep: string): (r: seq<string>)
    requires sep != []
    ensures |r| >= 1
    decreases |s|
  {
    if |s| < |sep| then [s]
    else if s[..|sep|] == sep then [[]] + SplitOn(s[|sep|..], sep)
    else
      var rest := SplitOn(s[1..], sep);
      [[s[0]] + rest[0]] + rest[1..]
  }

  /** A join of several pieces is the first piece, the separator and the
      join of the rest. */
  lemma JoinCons(sep: string, w: string, ws: seq<string>)
    requires ws != []
    ensures JoinWith(sep, [w] + ws) == w + sep + JoinWith(sep, ws)
  {
    assert ([w] + ws)[1..] == ws;
  }

  /** Putting a character in front of the first piece puts it in front of
      the joined string. */
  lemma JoinPrepend(sep: string, c: char, ws: seq<string>)
    requires ws != []
    ensures JoinWith(sep, [[c] + ws[0]] + ws[1..]) == [c] + JoinWith(sep, ws)
  {
    if |ws| > 1 {
      JoinCons(sep, [c] + ws[0], ws[1..]);
      JoinCons(sep, ws[0], ws[1..]);
      assert ws == [ws[0]] + ws[1..];
    }
  }

  /** Joining the pieces of a split with the same separator gives the
      input back. */
  lemma {:induction false} JoinSplit(s: string, sep: string)
    requires sep != []
    ensures JoinWith(sep, SplitOn(s, sep)) == s
    decreases |s|
  {
    if |s| < |sep| {
    } else if s[..|sep|] == sep {
      var tail := s[|sep|..];
      JoinSplit(tail, sep);
      SplitAtSep(s, sep);
      JoinCons(sep, [], SplitOn(tail, sep));
      assert s == sep + tail;
    } else {
      JoinSplit(s[1..], sep);
      SplitPastChar(s, sep);
      JoinPrepend(sep, s[0], SplitOn(s[1..], sep));
      assert s == [s[0]] + s[1..];
    }
  }

  lemma SplitAtSep(s: string, sep: string)
    requires sep != [] && |sep| <= |s| && s[..|sep|] == sep
    ensures SplitOn(s, sep) == [[]] + SplitOn(s[|sep|..], sep)
  {
  }

  lemma SplitPastChar(s: string, sep: string)
    requires sep != [] && |sep| <= |s| && s[..|sep|] != sep
    ensures SplitOn(s, sep) == [[s[0]] + SplitOn(s[1..], sep)[0]] + SplitOn(s[1..], sep)[1..]
  {
  }

  /** Splitting on a one-character separator undoes a join, provided no
      piece holds the separator. */
  lemma {:induction false} SplitJoin(ws: seq<string>, d: char)
    requires ws != []
    requires forall i :: 0 <= i < |ws| ==> d !in ws[i]
    ensures SplitOn(JoinWith([d], ws), [d]) == ws
    decreases |ws|, |ws[0]|
  {
    var s := JoinWith([d], ws);
    if |ws| == 1 {
      SplitOfSeparatorFree(ws[0], d);
    } else if ws[0] == [] {
      assert s == [d] + JoinWith([d], ws[1..]);
      assert s[..1] == [d];
      assert s[1..] == JoinWith([d], ws[1..]);
      SplitJoin(ws[1..], d);
      assert ws == [[]] + ws[1..];
    } else {
      var ws' := [ws[0][1..]] + ws[1..];
      forall i | 0 <= i < |ws'| ensures d !in ws'[i] {
        if i == 0 {
          assert forall c :: c in ws[0][1..] ==> c in ws[0];
        } else {
          assert ws'[i] == ws[i];
        }
      }
      assert JoinWith([d], ws') == ws[0][1..] + [d] + JoinWith([d], ws[1..]);
      assert s == [ws[0][0]] + JoinWith([d], ws');
      assert s[..1] != [d] by {
        assert s[..1] == [s[0]];
        assert s[0] == ws[0][0];
        assert ws[0][0] in ws[0];
      }
      assert s[1..] == JoinWith([d], ws');
      SplitJoin(ws', d);
      assert [ws[0][0]] + ws'[0] == ws[0];
      assert ws'[1..] == ws[1..];
      assert ws == [ws[0]] + ws[1..];
    }
  }

  lemma {:induction false} SplitOfSeparatorFree(w: string, d: char)
    requires d !in w
    ensures SplitOn(w, [d]) == [w]
    decreases |w|
  {
    if |w| >= 1 {
      assert w[..1] != [d] by {
        assert w[..1] == [w[0]];
        assert w[0] in w;
      }
      assert forall c :: c in w[1..] ==> c in w;
      SplitOfSeparatorFree(w[1..], d);
      assert w == [w[0]] + w[1..];
    }
  }

  /** Length of the leading run of non-whitespace characters. */
  function WordLen(t: string): (n: nat)
    ensures n <= |t|
    ensures t != [] && !IsSpace(t[0]) ==> n >= 1
  {
    if t == [] || IsSpace(t[0]) then 0 else 1 + WordLen(t[1..])
  }

  lemma {:induction false} WordLenStopsAtSpace(t: string)
    ensures forall k :: 0 <= k < WordLen(t) ==> !IsSpace(t[k])
    ensures WordLen(t) < |t| ==> IsSpace(t[WordLen(t)])
  {
    if t != [] && !IsSpace(t[0]) {
      WordLenStopsAtSpace(t[1..]);
    }
  }

  lemma {:induction false} WordLenOfWord(w: string, rest: string)
    requires IsWord(w)
    requires rest == [] || IsSpace(rest[0])
    ensures WordLen(w + rest) == |w|
    decreases |w|
  {
    assert (w + rest)[0] == w[0];
    if |w| > 1 {
      assert (w + rest)[1..] == w[1..] + rest;
      WordLenOfWord(w[1..], rest);
    } else {
      assert (w + rest)[1..] == rest;
    }
  }

  /** A word in the sense of `split()`: not empty, no whitespace in it. */
  predicate IsWord(w: string) {
    w != [] && forall k :: 0 <= k < |w| ==> !IsSpace(w[k])
  }

  predicate AllWords(ws: seq<string>) {
    forall i :: 0 <= i < |ws| ==> IsWord(ws[i])
  }

  /** `s.split()` with no argument. */
  function Words(s: string): (ws: seq<string>)
    decreases |s|
  {
    var t := TrimStart(s);
    if t == [] then []
    else
      var n := WordLen(t);
      [t[..n]] + Words(t[n..])
  }

  /** `split()` yields non-empty pieces free of whitespace. */
  lemma {:induction false} WordsAreWords(s: string)
    ensures AllWords(Words(s))
    decreases |s|
  {
    var t := TrimStart(s);
    if t != [] {
      var n := WordLen(t);
      WordLenStopsAtSpace(t);
      WordsAreWords(t[n..]);
      var ws := Words(s);
      assert ws == [t[..n]] + Words(t[n..]);
      forall i | 0 <= i < |ws| ensures IsWord(ws[i]) {
        if i > 0 {
          assert ws[i] == Words(t[n..])[i - 1];
        }
      }
    }
  }

  /** The words of `s` are made of characters of `s`: whatever holds of
      every character of `s` holds of every character of its words. */
  lemma {:induction false} WordsKeep(s: string, p: char -> bool)
    requires AllChars(s, p)
    ensures AllWordChars(Words(s), p)
    decreases |s|
  {
    var t := TrimStart(s);
    if t != [] {
      TrimStartDropsSpaces(s);
      AllCharsSlice(s, p, |s| - |t|, |s|);
      assert t == s[|s| - |t|..|s|];
      var n := WordLen(t);
      AllCharsSlice(t, p, 0, n);
      AllCharsSlice(t, p, n, |t|);
      assert t[n..|t|] == t[n..];
      assert t[0..n] == t[..n];
      WordsKeep(t[n..], p);
      AllWordCharsCons(t[..n], Words(t[n..]), p);
    }
  }

  /** Joining with a separator whose characters have a property keeps it. */
  lemma {:induction false} JoinKeep(sep: string, ws: seq<string>, p: char -> bool)
    requires AllChars(sep, p)
    requires AllWordChars(ws, p)
    ensures AllChars(JoinWith(sep, ws), p)
  {
    if |ws| > 1 {
      assert AllWordChars(ws[1..], p) by {
        forall i | 0 <= i < |ws[1..]| ensures AllChars(ws[1..][i], p) {
          assert ws[1..][i] == ws[i + 1];
        }
      }
      JoinKeep(sep, ws[1..], p);
      var tail := JoinWith(sep, ws[1..]);
      var r := JoinWith(sep, ws);
      assert r == ws[0] + sep + tail;
      assert AllChars(ws[0], p);
      forall k | 0 <= k < |r| ensures p(r[k]) {
        if k < |ws[0]| {
          assert r[k] == ws[0][k];
        } else if k < |ws[0]| + |sep| {
          assert r[k] == sep[k - |ws[0]|];
        } else {
          assert r[k] == tail[k - |ws[0]| - |sep|];
        }
      }
    } else if |ws| == 1 {
      assert AllChars(ws[0], p);
    }
  }

  /** One space between words, none at either end, and no whitespace
      other than those single spaces: the shape `" ".join(s.split())` has. */
  predicate SingleSpaced(r: string) {
    && (forall k :: 0 <= k < |r| && IsSpace(r[k]) ==> r[k] == ' ')
    && (r != [] ==> r[0] != ' ' && r[|r| - 1] != ' ')
    && (forall k :: 0 <= k < |r| - 1 ==> !(r[k] == ' ' && r[k + 1] == ' '))
  }

  lemma {:induction false} JoinWordsSingleSpaced(ws: seq<string>)
    requires AllWords(ws)
    ensures SingleSpaced(JoinWith(" ", ws))
  {
    if |ws| == 1 {
      assert IsWord(ws[0]);
    } else if |ws| > 1 {
      assert AllWords(ws[1..]) by {
        forall i | 0 <= i < |ws[1..]| ensures IsWord(ws[1..][i]) {
          assert ws[1..][i] == ws[i + 1];
        }
      }
      JoinWordsSingleSpaced(ws[1..]);
      var w := ws[0];
      assert IsWord(w) && IsWord(ws[1]);
      var tail := JoinWith(" ", ws[1..]);
      var r := JoinWith(" ", ws);
      assert r == w + " " + tail;
      assert tail != [] && !IsSpace(tail[0]) by {
        if |ws| == 2 {
          assert tail == ws[1];
        } else {
          assert tail == ws[1] + " " + JoinWith(" ", ws[2..]);
        }
      }
      assert forall k :: 0 <= k < |w| ==> r[k] == w[k];
      assert r[|w|] == ' ';
      assert forall k :: |w| < k < |r| ==> r[k] == tail[k - |w| - 1];
      forall k | 0 <= k < |r| - 1
        ensures !(r[k] == ' ' && r[k + 1] == ' ')
      {
        if k == |w| {
          assert r[k + 1] == tail[0];
        }
      }
    }
  }

  /** `split()` recovers the words that were joined with single spaces. */
  lemma {:induction false} WordsOfJoin(ws: seq<string>)
    requires AllWords(ws)
    ensures Words(JoinWith(" ", ws)) == ws
    decreases |ws|
  {
    if ws != [] {
      var r := JoinWith(" ", ws);
      var w := ws[0];
      assert IsWord(w);
      if |ws| == 1 {
        assert TrimStart(r) == r by { assert r[0] == w[0]; }
        WordLenOfWord(w, []);
        assert r == w + [];
        assert r[|w|..] == [];
        assert r[..|w|] == w;
      } else {
        var tail := JoinWith(" ", ws[1..]);
        assert r == w + (" " + tail);
        assert TrimStart(r) == r by { assert r[0] == w[0]; }
        WordLenOfWord(w, " " + tail);
        assert r[..|w|] == w;
        assert r[|w|..] == " " + tail;
        assert AllWords(ws[1..]) by {
          forall i | 0 <= i < |ws[1..]| ensures IsWord(ws[1..][i]) {
            assert ws[1..][i] == ws[i + 1];
          }
        }
        assert TrimStart(" " + tail) == tail by {
          assert (" " + tail)[1..] == tail;
          assert IsWord(ws[1]);
          if |ws| == 2 {
            assert tail == ws[1];
          } else {
            assert tail == ws[1] + " " + JoinWith(" ", ws[2..]);
          }
          assert tail[0] == ws[1][0];
        }
        WordsOfJoin(ws[1..]);
      }
    }
  }

  /** A single-spaced string past its first word and the space after it
      is single-spaced and starts with a word. */
  lemma SingleSpacedRest(s: string, n: nat)
    requires SingleSpaced(s) && n < |s| && s[n] == ' '
    ensures n + 1 < |s| && !IsSpace(s[n + 1])
    ensures SingleSpaced(s[n + 1..])
  {
    var rest := s[n + 1..];
    assert forall k :: 0 <= k < |rest| ==> rest[k] == s[n + 1 + k];
  }

  /** `split()` of a single-spaced string whose first word ends at `n`:
      that word, then the words of what follows the space. */
  lemma WordsOfSpacedRest(s: string, n: nat)
    requires s != [] && !IsSpace(s[0]) && n == WordLen(s) && n < |s|
    requires s[n] == ' ' && n + 1 < |s| && !IsSpace(s[n + 1])
    ensures Words(s) == [s[..n]] + Words(s[n + 1..])
    ensures Words(s[n + 1..]) != []
  {
    assert TrimStart(s) == s;
    assert s[n..][1..] == s[n + 1..];
    assert TrimStart(s[n..]) == TrimStart(s[n + 1..]);
    assert TrimStart(s[n + 1..]) == s[n + 1..];
  }

  lemma JoinWordsOfOneWord(s: string)
    requires s != [] && !IsSpace(s[0]) && WordLen(s) == |s|
    ensures JoinWith(" ", Words(s)) == s
  {
    assert TrimStart(s) == s;
    assert s[|s|..] == [];
    assert s[..|s|] == s;
    assert Words(s) == [s] + Words([]);
  }

  lemma JoinAfterWord(w: string, ws: seq<string>, rest: string)
    requires ws != [] && JoinWith(" ", ws) == rest
    ensures JoinWith(" ", [w] + ws) == w + " " + rest
  {
    JoinCons(" ", w, ws);
  }

  lemma SplitAround(s: string, n: nat)
    requires n < |s| && s[n] == ' '
    ensures s == s[..n] + " " + s[n + 1..]
  {
    assert s == s[..n] + [s[n]] + s[n + 1..];
  }

  lemma JoinWordsOfTwoParts(s: string, n: nat)
    requires s != [] && !IsSpace(s[0]) && n == WordLen(s) && n < |s|
    requires s[n] == ' ' && n + 1 < |s| && !IsSpace(s[n + 1])
    requires JoinWith(" ", Words(s[n + 1..])) == s[n + 1..]
    ensures JoinWith(" ", Words(s)) == s
  {
    WordsOfSpacedRest(s, n);
    JoinAfterWord(s[..n], Words(s[n + 1..]), s[n + 1..]);
    SplitAround(s, n);
  }

  /** `" ".join(s.split())` leaves an already single-spaced string as it is. */
  lemma {:induction false} JoinWordsOfSingleSpaced(s: string)
    requires SingleSpaced(s)
    ensures JoinWith(" ", Words(s)) == s
    decreases |s|
  {
    if s != [] {
      var n := WordLen(s);
      WordLenStopsAtSpace(s);
      if n == |s| {
        JoinWordsOfOneWord(s);
      } else {
        SingleSpacedRest(s, n);
        JoinWordsOfSingleSpaced(s[n + 1..]);
        JoinWordsOfTwoParts(s, n);
      }
    }
  }

  /** `sub in s`. */
  predicate ContainsAt(s: string, sub: string, i: int) {
    0 <= i && i + |sub| <= |s| && s[i..i + |sub|] == sub
  }

  predicate Contains(s: string, sub: string) {
    exists i :: 0 <= i <= |s| && ContainsAt(s, sub, i)
  }

  /** `s.endswith(suffix)`. */
  predicate EndsWith(s: string, suffix: string) {
    |suffix| <= |s| && s[|s| - |suffix|..] == suffix
  }

  /** `c.lower()` for the Basic Latin and Cyrillic capitals; the result is
      never one of those capitals. */
  function LowerChar(c: char): (r: char)
    ensures !('A' <= r <= 'Z') && !('\U{400}' <= r <= '\U{42F}')
    ensures 'A' <= c <= 'Z' ==> r as int == c as int + 32
    ensures '\U{410}' <= c <= '\U{42F}' ==> r as int == c as int + 0x20
    ensures '\U{400}' <= c <= '\U{40F}' ==> r as int == c as int + 0x50
    ensures !('A' <= c <= 'Z') && !('\U{400}' <= c <= '\U{42F}') ==> r == c
  {
    if 'A' <= c <= 'Z' then (c as int + 32) as char
    else if '\U{410}' <= c <= '\U{42F}' then (c as int + 0x20) as char
    else if '\U{400}' <= c <= '\U{40F}' then (c as int + 0x50) as char
    else c
  }

  /** `s.lower()`. */
  function Lower(s: string): (r: string)
    ensures |r| == |s|
    ensures forall k :: 0 <= k < |s| ==> r[k] == LowerChar(s[k])
  {
    seq(|s|, k requires 0 <= k < |s| => LowerChar(s[k]))
  }

  lemma LowerConcat(a: string, b: string)
    ensures Lower(a + b) == Lower(a) + Lower(b)
  {
  }

  /** Decimal rendering of a natural number, as `str(n)` gives it. */
  function NatToString(n: nat): (r: string)
    ensures r != []
  {
    var d := ['0' + (n % 10) as char];
    if n < 10 then d else NatToString(n / 10) + d
  }
}
