/**
 * File names for saved replies: `sanitize_filename` and the name
 * `save_response_to_file` builds from the first words of the user's request
 * and a timestamp.
 */
module Filenames {
  import opened Seqs
  import opened Text

  /** The characters `sanitize_filename` deletes. */
  predicate Forbidden(c: char)
  {
    c == '\\' || c == '/' || c == ':' || c == '*' || c == '?' || c == '"' || c == '<' || c == '>' || c == '|'
  }

  predicate Clean(s: string)
  {
    forall i :: 0 <= i < |s| ==> !Forbidden(s[i])
  }

  /** `sanitize_filename`: delete every forbidden character. */
  function Sanitize(s: string): (r: string)
    ensures Clean(r)
    ensures |r| <= |s|
    decreases |s|
  {
    if s == [] then ""
    else
      var c := s[|s| - 1];
      Sanitize(s[..|s| - 1]) + (if Forbidden(c) then "" else [c])
  }

  /** Sanitizing works character by character: it distributes over concatenation. */
  lemma {:induction false} SanitizeAppend(a: string, b: string)
    ensures Sanitize(a + b) == Sanitize(a) + Sanitize(b)
    decreases |b|
  {
    if b == [] {
      assert a + b == a;
    } else {
      var init := b[..|b| - 1];
      assert (a + b)[..|a + b| - 1] == a + init;
      assert (a + b)[|a + b| - 1] == b[|b| - 1];
      SanitizeAppend(a, init);
    }
  }

  /** On one character, sanitizing deletes it exactly when it is forbidden. */
  lemma SanitizeChar(c: char)
    ensures Sanitize([c]) == if Forbidden(c) then "" else [c]
  {
    assert [c][..0] == [];
  }

  /** The allowed characters survive, with how often they occur unchanged. */
  lemma {:induction false} SanitizeKeepsAllowed(s: string, c: char)
    requires !Forbidden(c)
    ensures multiset(Sanitize(s))[c] == multiset(s)[c]
    decreases |s|
  {
    if s != [] {
      var init, last := s[..|s| - 1], [s[|s| - 1]];
      SanitizeKeepsAllowed(init, c);
      assert s == init + last;
      SanitizeAppend(init, last);
      SanitizeChar(last[0]);
      assert multiset(Sanitize(s)) == multiset(Sanitize(init)) + multiset(Sanitize(last));
      assert multiset(s) == multiset(init) + multiset(last);
      assert multiset(Sanitize(last))[c] == multiset(last)[c];
    }
  }

  /** A string without forbidden characters is left as it is. */
  lemma {:induction false} SanitizeClean(s: string)
    requires Clean(s)
    ensures Sanitize(s) == s
    decreases |s|
  {
    if s != [] {
      var init := s[..|s| - 1];
      assert Clean(init);
      SanitizeClean(init);
    }
  }

  /** Sanitizing leaves a string unchanged exactly when it has no forbidden character. */
  lemma SanitizeIdentity(s: string)
    ensures Sanitize(s) == s <==> Clean(s)
  {
    if Clean(s) {
      SanitizeClean(s);
    }
  }

  lemma SanitizeIdempotent(s: string)
    ensures Sanitize(Sanitize(s)) == Sanitize(s)
  {
    SanitizeIdentity(Sanitize(s));
  }

  /** How many leading words of the request go into the file name. */
  const NameWords := 3

  /** `'_'.join(user_text.split()[:3])`. */
  function NameStem(userText: string): string
  {
    Join("_", FirstWords(userText, NameWords))
  }

  /**
   * The file name `luna_raw_assistant.py` and the strawberry script build:
   * stem, '_', timestamp, ".txt", with nothing removed.
   */
  function RawResponseFileName(userText: string, timestamp: string): (name: string)
    ensures |name| >= 5 && name[|name| - 4..] == ".txt"
  {
    NameStem(userText) + "_" + timestamp + ".txt"
  }

  /**
   * The file name the other two scripts build: the same name, sanitized.
   */
  function ResponseFileName(userText: string, timestamp: string): (name: string)
    ensures Clean(name)
  {
    Sanitize(RawResponseFileName(userText, timestamp))
  }

  /** The sanitized name is the sanitized stem and timestamp around an intact "_" and ".txt". */
  lemma ResponseFileNameShape(userText: string, timestamp: string)
    ensures ResponseFileName(userText, timestamp) == Sanitize(NameStem(userText)) + "_" + Sanitize(timestamp) + ".txt"
  {
    SanitizeAround(NameStem(userText), timestamp);
  }

  lemma SanitizeAround(stem: string, timestamp: string)
    ensures Sanitize(stem + "_" + timestamp + ".txt") == Sanitize(stem) + "_" + Sanitize(timestamp) + ".txt"
  {
    assert Clean("_") && Clean(".txt");
    SanitizeBetween(stem, "_", timestamp, ".txt");
  }

  /** Clean separators pass through sanitizing untouched. */
  lemma SanitizeBetween(a: string, sep: string, b: string, ext: string)
    requires Clean(sep) && Clean(ext)
    ensures Sanitize(a + sep + b + ext) == Sanitize(a) + sep + Sanitize(b) + ext
  {
    SanitizeAppend(a + sep + b, ext);
    SanitizeAppend(a + sep, b);
    SanitizeAppend(a, sep);
    SanitizeClean(sep);
    SanitizeClean(ext);
  }

  /** A request whose words are already clean names its file with those words unchanged. */
  lemma CleanRequestName(userText: string, timestamp: string)
    requires Clean(userText) && Clean(timestamp)
    ensures ResponseFileName(userText, timestamp) == RawResponseFileName(userText, timestamp)
  {
    WordsAreClean(userText);
    JoinClean(FirstWords(userText, NameWords));
    ResponseFileNameShape(userText, timestamp);
    SanitizeClean(NameStem(userText));
    SanitizeClean(timestamp);
  }

  lemma {:induction false} WordsAreClean(s: string)
    requires Clean(s)
    ensures forall k :: 0 <= k < |Words(s)| ==> Clean(Words(s)[k])
    decreases |s|
  {
    if s != [] {
      if IsSpace(s[0]) {
        WordsAreClean(s[1..]);
      } else {
        var j := WordEnd(s, 0);
        WordsAreClean(s[j..]);
      }
    }
  }

  lemma {:induction false} JoinClean(ws: seq<string>)
    requires forall k :: 0 <= k < |ws| ==> Clean(ws[k])
    ensures Clean(Join("_", ws))
    decreases |ws|
  {
    if |ws| > 1 {
      JoinClean(ws[..|ws| - 1]);
    }
  }

  /**
   * Without sanitizing, a '/' in the request's first words reaches the file
   * name, where the operating system reads it as a directory separator.
   */
  lemma RawNameKeepsSeparator()
    ensures RawResponseFileName("1/2", "20240101_120000") == "1/2_20240101_120000.txt"
    ensures !Clean(RawResponseFileName("1/2", "20240101_120000"))
  {
    SingleWord("1/2");
    assert RawResponseFileName("1/2", "20240101_120000")[1] == '/';
  }
}
