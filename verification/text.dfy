/**
 * The Python `str` operations the assistant scripts use, restricted to ASCII:
 * `split()` with no separator, `strip()`, `lower()`, `sep.join(...)` and
 * the `in` substring test.
 */
module Text {
  import opened Seqs

  /** The ASCII characters `str.split()` and `str.strip()` treat as whitespace. */
  predicate IsSpace(c: char)
  {
    c == ' ' || c == '\t' || c == '\n' || c == '\r' || c == '\U{000B}' || c == '\U{000C}'
    || c == '\U{001C}' || c == '\U{001D}' || c == '\U{001E}' || c == '\U{001F}'
  }

  predicate NoSpace(s: string)
  {
    forall i :: 0 <= i < |s| ==> !IsSpace(s[i])
  }

  predicate AllSpace(s: string)
  {
    forall i :: 0 <= i < |s| ==> IsSpace(s[i])
  }

  /** `lower()` of one ASCII character. */
  function LowerChar(c: char): char
  {
    if 'A' <= c <= 'Z' then (c as int + 32) as char else c
  }

  /** `str.lower()`, ASCII only. */
  function Lower(s: string): (r: string)
    ensures |r| == |s|
  {
    seq(|s|, i requires 0 <= i < |s| => LowerChar(s[i]))
  }

  /** Python's `sub in s`. */
  predicate Contains(s: string, sub: string)
  {
    exists i :: 0 <= i <= |s| - |sub| && OccursAt(s, sub, i)
  }

  /** `sub` appears in `s` starting at index `i`. */
  predicate OccursAt(s: string, sub: string, i: int)
  {
    0 <= i <= |s| - |sub| && s[i..i + |sub|] == sub
  }

  /** Number of whitespace characters at the start of `s`. */
  function LeadingSpace(s: string): (n: nat)
    ensures n <= |s|
    ensures AllSpace(s[..n])
    ensures n < |s| ==> !IsSpace(s[n])
    decreases |s|
  {
    if s == [] || !IsSpace(s[0]) then 0 else 1 + LeadingSpace(s[1..])
  }

  /** Number of whitespace characters at the end of `s`. */
  function TrailingSpace(s: string): (n: nat)
    ensures n <= |s|
    ensures AllSpace(s[|s| - n..])
    ensures n < |s| ==> !IsSpace(s[|s| - n - 1])
    decreases |s|
  {
    if s == [] || !IsSpace(s[|s| - 1]) then 0 else 1 + TrailingSpace(s[..|s| - 1])
  }

  /** `str.strip()`: `s` without its leading and trailing whitespace. */
  function Strip(s: string): (r: string)
    ensures |r| == 0 || (!IsSpace(r[0]) && !IsSpace(r[|r| - 1]))
    ensures |r| <= |s|
    ensures exists lo :: StrippedWindow(s, r, lo)
  {
    var lo := LeadingSpace(s);
    var r := s[lo..];
    var hi := |r| - TrailingSpace(r);
    assert r[..hi] == s[lo..lo + hi];
    assert s[lo + hi..] == r[hi..];
    assert StrippedWindow(s, r[..hi], lo);
    r[..hi]
  }

  /** `r` sits in `s` at `lo` with only whitespace around it and none at its own ends. */
  predicate StrippedWindow(s: string, r: string, lo: nat)
  {
    && (|r| == 0 || (!IsSpace(r[0]) && !IsSpace(r[|r| - 1])))
    && lo + |r| <= |s| && s[lo..lo + |r|] == r
    && AllSpace(s[..lo]) && AllSpace(s[lo + |r|..])
  }

  /** Two stripped windows of the same string are the same text. */
  lemma StrippedWindowUnique(s: string, a: string, i: nat, b: string, j: nat)
    requires StrippedWindow(s, a, i) && StrippedWindow(s, b, j)
    ensures a == b
  {
    var ea, eb := i + |a|, j + |b|;
    SpaceAround(s, i, ea);
    SpaceAround(s, j, eb);
    assert |a| > 0 ==> s[i] == a[0] && s[ea - 1] == a[|a| - 1];
    assert |b| > 0 ==> s[j] == b[0] && s[eb - 1] == b[|b| - 1];
  }

  lemma SpaceAround(s: string, lo: nat, hi: nat)
    requires lo <= hi <= |s| && AllSpace(s[..lo]) && AllSpace(s[hi..])
    ensures forall k :: 0 <= k < |s| && (k < lo || hi <= k) ==> IsSpace(s[k])
  {
    forall k | 0 <= k < |s| && (k < lo || hi <= k)
      ensures IsSpace(s[k])
    {
      if k < lo {
        assert s[..lo][k] == s[k];
      } else {
        assert s[hi..][k - hi] == s[k];
      }
    }
  }

  /** `str.strip()` is the only stripped window: the characterisation determines it. */
  lemma StripUnique(s: string, r: string, lo: nat)
    requires StrippedWindow(s, r, lo)
    ensures r == Strip(s)
  {
    var t := Strip(s);
    var lo2 :| StrippedWindow(s, t, lo2);
    StrippedWindowUnique(s, r, lo, t, lo2);
  }

  /** Stripping a string that has no whitespace at either end leaves it as it is. */
  lemma StripStripped(s: string)
    requires |s| == 0 || (!IsSpace(s[0]) && !IsSpace(s[|s| - 1]))
    ensures Strip(s) == s
  {
  }

  /** `str.strip()` is idempotent. */
  lemma StripIdempotent(s: string)
    ensures Strip(Strip(s)) == Strip(s)
  {
    StripStripped(Strip(s));
  }

  /** Index of the first whitespace character at or after `i`, or `|s|`. */
  function WordEnd(s: string, i: nat): (j: nat)
    requires i <= |s|
    ensures i <= j <= |s|
    ensures NoSpace(s[i..j])
    ensures j < |s| ==> IsSpace(s[j])
    decreases |s| - i
  {
    if i == |s| || IsSpace(s[i]) then i else WordEnd(s, i + 1)
  }

  /** The non-whitespace characters of `s`, in order. */
  function NonSpace(s: string): (r: string)
    ensures NoSpace(r)
    decreases |s|
  {
    if s == [] then [] else (if IsSpace(s[0]) then [] else [s[0]]) + NonSpace(s[1..])
  }

  /** `str.split()`: the maximal runs of non-whitespace characters, in order. */
  function Words(s: string): (ws: seq<string>)
    ensures forall k :: 0 <= k < |ws| ==> |ws[k]| > 0 && NoSpace(ws[k])
    decreases |s|
  {
    if s == [] then []
    else if IsSpace(s[0]) then Words(s[1..])
    else
      var j := WordEnd(s, 0);
      [s[..j]] + Words(s[j..])
  }

  lemma NonSpaceAppend(a: string, b: string)
    ensures NonSpace(a + b) == NonSpace(a) + NonSpace(b)
    decreases |a|
  {
    if a != [] {
      assert (a + b)[0] == a[0];
      assert (a + b)[1..] == a[1..] + b;
      NonSpaceAppend(a[1..], b);
    } else {
      assert a + b == b;
    }
  }

  lemma NonSpaceOfWord(s: string)
    requires NoSpace(s)
    ensures NonSpace(s) == s
    decreases |s|
  {
    if s != [] {
      NonSpaceOfWord(s[1..]);
    }
  }

  /** Splitting loses exactly the whitespace: the words concatenate to the non-whitespace characters. */
  lemma {:induction false} WordsKeepText(s: string)
    ensures Flatten(Words(s)) == NonSpace(s)
    decreases |s|
  {
    if s != [] {
      if IsSpace(s[0]) {
        WordsKeepText(s[1..]);
      } else {
        var j := WordEnd(s, 0);
        WordsKeepText(s[j..]);
        FlattenCons(s[..j], Words(s[j..]));
        assert s == s[..j] + s[j..];
        NonSpaceAppend(s[..j], s[j..]);
        NonSpaceOfWord(s[..j]);
      }
    }
  }

  /** `sep.join(ws)`. */
  function Join(sep: string, ws: seq<string>): string
    decreases |ws|
  {
    if ws == [] then ""
    else if |ws| == 1 then ws[0]
    else Join(sep, ws[..|ws| - 1]) + sep + ws[|ws| - 1]
  }

  /** Where the scan for the end of a word lands when more text follows. */
  lemma {:induction false} WordEndAppend(a: string, x: string, i: nat)
    requires i <= |a|
    requires x != [] && IsSpace(x[0])
    ensures WordEnd(a + x, i) == WordEnd(a, i)
    decreases |a| - i
  {
    if i < |a| {
      assert (a + x)[i] == a[i];
      if !IsSpace(a[i]) {
        WordEndAppend(a, x, i + 1);
      }
    } else {
      assert (a + x)[i] == x[0];
    }
  }

  /** A whitespace character separates the words on its two sides. */
  lemma WordsAcrossSpace(a: string, c: char, b: string)
    requires IsSpace(c)
    ensures Words(a + [c] + b) == Words(a) + Words(b)
  {
    assert a + [c] + b == a + ([c] + b);
    WordsBeforeSpace(a, [c] + b);
    WordsLeadingSpace(c, b);
  }

  /** Text that starts with whitespace never joins the last word before it. */
  lemma {:induction false} WordsBeforeSpace(a: string, x: string)
    requires x != [] && IsSpace(x[0])
    ensures Words(a + x) == Words(a) + Words(x)
    decreases |a|
  {
    if a == [] {
      assert a + x == x;
    } else if IsSpace(a[0]) {
      assert (a + x)[0] == a[0];
      assert (a + x)[1..] == a[1..] + x;
      WordsBeforeSpace(a[1..], x);
    } else {
      var j := WordEnd(a, 0);
      FirstWordOff(a, x);
      WordsBeforeSpace(a[j..], x);
      WordsUnfold(a);
    }
  }

  /** The first word of `a` stays the first word when text starting with whitespace follows. */
  lemma FirstWordOff(a: string, x: string)
    requires a != [] && !IsSpace(a[0]) && x != [] && IsSpace(x[0])
    ensures Words(a + x) == [a[..WordEnd(a, 0)]] + Words(a[WordEnd(a, 0)..] + x)
  {
    var s := a + x;
    var j := WordEnd(a, 0);
    WordEndAppend(a, x, 0);
    assert s[0] == a[0];
    WordsUnfold(s);
    assert s[..j] == a[..j] && s[j..] == a[j..] + x;
  }

  /** A string that starts with a word splits into that word and the words after it. */
  lemma WordsUnfold(s: string)
    requires s != [] && !IsSpace(s[0])
    ensures Words(s) == [s[..WordEnd(s, 0)]] + Words(s[WordEnd(s, 0)..])
  {
  }

  lemma WordsLeadingSpace(c: char, b: string)
    requires IsSpace(c)
    ensures Words([c] + b) == Words(b)
  {
    assert ([c] + b)[1..] == b;
  }

  lemma WordEndWhole(w: string, i: nat)
    requires i <= |w| && NoSpace(w)
    ensures WordEnd(w, i) == |w|
    decreases |w| - i
  {
    if i < |w| {
      WordEndWhole(w, i + 1);
    }
  }

  /** A non-empty string without whitespace is a single word. */
  lemma SingleWord(w: string)
    requires |w| > 0 && NoSpace(w)
    ensures Words(w) == [w]
  {
    WordEndWhole(w, 0);
    assert !IsSpace(w[0]);
    assert Words(w) == [w[..|w|]] + Words(w[|w|..]);
    assert w[|w|..] == [];
    assert w[..|w|] == w;
  }

  /** Round trip: splitting the space-joined words gives the words back. */
  lemma {:induction false} WordsJoin(ws: seq<string>)
    requires forall k :: 0 <= k < |ws| ==> |ws[k]| > 0 && NoSpace(ws[k])
    ensures Words(Join(" ", ws)) == ws
    decreases |ws|
  {
    if ws == [] {
    } else if |ws| == 1 {
      SingleWord(ws[0]);
    } else {
      var init := ws[..|ws| - 1];
      WordsJoin(init);
      SingleWord(ws[|ws| - 1]);
      WordsAcrossSpace(Join(" ", init), ' ', ws[|ws| - 1]);
      assert ws == init + [ws[|ws| - 1]];
    }
  }

  /** The first `n` words of `s` (fewer if `s` has fewer): `s.split()[:n]`. */
  function FirstWords(s: string, n: nat): (ws: seq<string>)
    ensures |ws| <= n && |ws| <= |Words(s)|
    ensures ws == Words(s)[..|ws|]
    ensures |ws| == n || ws == Words(s)
  {
    var all := Words(s);
    if |all| <= n then all else all[..n]
  }
}
