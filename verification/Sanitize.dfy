/** Redaction of provider error texts (src/computer_use/openai.rs:957-974). */
module Sanitize {
  const IMAGE_PREFIX: string := "data:image/"
  const IMAGE_MARK: string := "[REDACTED_IMAGE]"
  const KEY_MARK: string := "[REDACTED_API_KEY]"
  const SNIPPET_LIMIT: nat := 800

  /** The Unicode property White_Space. */
  predicate Whitespace(c: char) {
    || '\t' <= c <= '\r' || c == ' ' || c == '\U{85}' || c == '\U{A0}' || c == '\U{1680}'
    || '\U{2000}' <= c <= '\U{200A}' || c == '\U{2028}' || c == '\U{2029}' || c == '\U{202F}'
    || c == '\U{205F}' || c == '\U{3000}'
  }

  /** The characters that end an image URL. */
  predicate Stop(c: char) {
    c == '"' || c == '\'' || Whitespace(c)
  }

  // ---------------------------------------------------------------- occurrences

  predicate At(s: string, n: string, i: nat) {
    i + |n| <= |s| && s[i..i + |n|] == n
  }

  predicate Free(s: string, n: string) {
    forall i: nat | i <= |s| :: !At(s, n, i)
  }

  /** The first occurrence at or after `i`, or -1. */
  function FindFrom(s: string, n: string, i: nat): (r: int)
    requires i <= |s|
    ensures r == -1 ==> forall j: nat | i <= j <= |s| :: !At(s, n, j)
    ensures r != -1 ==> i <= r <= |s| && At(s, n, r) && forall j: nat | i <= j < r :: !At(s, n, j)
    decreases |s| - i
  {
    if At(s, n, i) then i else if i == |s| then -1 else FindFrom(s, n, i + 1)
  }

  /** The first stop character at or after `i`, or the end. */
  function StopFrom(s: string, i: nat): (r: nat)
    requires i <= |s|
    ensures i <= r <= |s| && (r < |s| ==> Stop(s[r])) && forall j | i <= j < r :: !Stop(s[j])
    decreases |s| - i
  {
    if i == |s| || Stop(s[i]) then i else StopFrom(s, i + 1)
  }

  lemma AtChars(s: string, n: string, i: nat, k: nat)
    requires At(s, n, i) && k < |n|
    ensures s[i + k] == n[k]
  {
    assert s[i..i + |n|][k] == s[i + k];
  }

  lemma AtLeft(a: string, b: string, n: string, i: nat)
    requires i + |n| <= |a|
    ensures At(a + b, n, i) <==> At(a, n, i)
  {
    assert (a + b)[i..i + |n|] == a[i..i + |n|];
  }

  lemma AtRight(a: string, b: string, n: string, i: nat)
    ensures At(a + b, n, |a| + i) <==> At(b, n, i)
  {
    if i + |n| <= |b| {
      assert (a + b)[|a| + i..|a| + i + |n|] == b[i..i + |n|];
    }
  }

  /** Brackets on both ends and none inside. */
  predicate Mark(m: string) {
    |m| >= 2 && m[0] == '[' && m[|m| - 1] == ']'
  }

  predicate BracketFree(n: string) {
    n != [] && '[' !in n && ']' !in n
  }

  lemma Covered(s: string, n: string, i: nat)
    requires At(s, n, i)
    ensures forall q | i <= q < i + |n| :: s[q] in n
  {
    forall q | i <= q < i + |n| ensures s[q] in n {
      AtChars(s, n, i, q - i);
    }
  }

  /** An occurrence of a needle without brackets cannot cross the ends of a mark: it lies before the mark, inside
      it or after it. */
  lemma NoCrossing(a: string, m: string, b: string, n: string, i: nat)
    requires Mark(m) && BracketFree(n) && At(a + (m + b), n, i)
    ensures At(a, n, i) || (i >= |a| && At(m, n, i - |a|)) || (i >= |a| + |m| && At(b, n, i - |a| - |m|))
  {
    var s := a + (m + b);
    assert s[|a|] == '[' && s[|a| + |m| - 1] == ']';
    Covered(s, n, i);
    if i < |a| {
      AtLeft(a, m + b, n, i);
    } else {
      AtRight(a, m + b, n, i - |a|);
      if i < |a| + |m| {
        AtLeft(m, b, n, i - |a|);
      } else {
        AtRight(m, b, n, i - |a| - |m|);
      }
    }
  }

  lemma FreeAround(a: string, m: string, b: string, n: string)
    requires Mark(m) && BracketFree(n) && Free(a, n) && Free(m, n) && Free(b, n)
    ensures Free(a + (m + b), n)
  {
    forall i: nat | i <= |a + (m + b)| ensures !At(a + (m + b), n, i) {
      if At(a + (m + b), n, i) {
        NoCrossing(a, m, b, n, i);
      }
    }
  }

  lemma FreePrefix(s: string, n: string, k: nat)
    requires k <= |s| && n != []
    requires forall i: nat | i < k :: !At(s, n, i)
    ensures Free(s[..k], n)
  {
    forall i: nat | i <= k ensures !At(s[..k], n, i) {
      if At(s[..k], n, i) {
        assert s == s[..k] + s[k..];
        AtLeft(s[..k], s[k..], n, i);
      }
    }
  }

  lemma FreeSuffix(s: string, n: string, k: nat)
    requires k <= |s| && Free(s, n)
    ensures Free(s[k..], n)
  {
    assert s == s[..k] + s[k..];
    forall i: nat | i <= |s[k..]| ensures !At(s[k..], n, i) {
      AtRight(s[..k], s[k..], n, i);
    }
  }

  lemma MarksAreFree()
    ensures Mark(IMAGE_MARK) && Mark(KEY_MARK) && BracketFree(IMAGE_PREFIX)
    ensures Free(IMAGE_MARK, IMAGE_PREFIX)
  {
    forall i: nat | i <= |IMAGE_MARK| ensures !At(IMAGE_MARK, IMAGE_PREFIX, i) {
      if At(IMAGE_MARK, IMAGE_PREFIX, i) {
        AtChars(IMAGE_MARK, IMAGE_PREFIX, i, 0);
      }
    }
  }

  // ---------------------------------------------------------------- the two redactions in one pass

  /** str::replace: occurrences from left to right, none overlapping. */
  function ReplaceAll(s: string, key: string): string
    requires key != []
    decreases |s|
  {
    var i := FindFrom(s, key, 0);
    if i == -1 then s else s[..i] + (KEY_MARK + ReplaceAll(s[i + |key|..], key))
  }

  /** Every image URL, up to its stop character, becomes a mark. */
  function Redact(s: string): string
    decreases |s|
  {
    var i := FindFrom(s, IMAGE_PREFIX, 0);
    if i == -1 then s
    else
      StopIsLater(s, i);
      s[..i] + (IMAGE_MARK + Redact(s[StopFrom(s, i)..]))
  }

  lemma StopIsLater(s: string, i: nat)
    requires At(s, IMAGE_PREFIX, i)
    ensures i <= |s| && StopFrom(s, i) > i
  {
    AtChars(s, IMAGE_PREFIX, i, 0);
  }

  /** The redacted text has no image URL left. */
  lemma {:induction false} RedactedIsFree(s: string)
    ensures Free(Redact(s), IMAGE_PREFIX)
    decreases |s|
  {
    var i := FindFrom(s, IMAGE_PREFIX, 0);
    if i != -1 {
      StopIsLater(s, i);
      RedactedIsFree(s[StopFrom(s, i)..]);
      FreePrefix(s, IMAGE_PREFIX, i);
      MarksAreFree();
      FreeAround(s[..i], IMAGE_MARK, Redact(s[StopFrom(s, i)..]), IMAGE_PREFIX);
    }
  }

  /** So redacting again changes nothing. */
  lemma RedactIdempotent(s: string)
    ensures Redact(Redact(s)) == Redact(s)
  {
    RedactedIsFree(s);
  }

  /** Redaction brings no needle into the text that was not there, marks aside. */
  lemma {:induction false} RedactKeepsFree(s: string, n: string)
    requires BracketFree(n) && Free(s, n) && Free(IMAGE_MARK, n)
    ensures Free(Redact(s), n)
    decreases |s|
  {
    var i := FindFrom(s, IMAGE_PREFIX, 0);
    if i != -1 {
      StopIsLater(s, i);
      var e := StopFrom(s, i);
      FreeSuffix(s, n, e);
      RedactKeepsFree(s[e..], n);
      FreePrefix(s, n, i);
      MarksAreFree();
      FreeAround(s[..i], IMAGE_MARK, Redact(s[e..]), n);
    }
  }

  lemma ReplaceStep(s: string, key: string, i: nat)
    requires key != [] && FindFrom(s, key, 0) == i && i + |key| <= |s|
    ensures ReplaceAll(s, key) == s[..i] + (KEY_MARK + ReplaceAll(s[i + |key|..], key))
  {
  }

  lemma ReplaceFirst(s: string, key: string, i: nat, a: string, rest: string)
    requires key != [] && FindFrom(s, key, 0) == i && i + |key| <= |s| && s[..i] == a && s[i + |key|..] == rest
    ensures ReplaceAll(s, key) == a + (KEY_MARK + ReplaceAll(rest, key))
  {
    ReplaceStep(s, key, i);
  }

  /** The text before the first occurrence and the text after it. */
  lemma FirstReplacement(s: string, key: string) returns (a: string, rest: string)
    requires key != []
    ensures Free(s, key) ==> ReplaceAll(s, key) == s
    ensures !Free(s, key) ==>
              |rest| < |s| && Free(a, key) && ReplaceAll(s, key) == a + (KEY_MARK + ReplaceAll(rest, key))
  {
    var i := FindFrom(s, key, 0);
    a, rest := "", "";
    if i == -1 {
      assert Free(s, key);
    } else {
      FreePrefix(s, key, i);
      a, rest := s[..i], s[i + |key|..];
      ReplaceFirst(s, key, i, a, rest);
    }
  }

  lemma {:induction false} ReplacedIsFree(s: string, key: string)
    requires BracketFree(key) && Free(KEY_MARK, key)
    ensures Free(ReplaceAll(s, key), key)
    decreases |s|
  {
    var a, rest := FirstReplacement(s, key);
    if !Free(s, key) {
      ReplacedIsFree(rest, key);
      MarksAreFree();
      FreeAround(a, KEY_MARK, ReplaceAll(rest, key), key);
    }
  }

  /** For a key without brackets, the replaced text still shows the key exactly when the text had it and the key
      is itself a part of the mark. */
  lemma KeyShowsExactly(s: string, key: string)
    requires BracketFree(key)
    ensures !Free(ReplaceAll(s, key), key) <==> !Free(s, key) && !Free(KEY_MARK, key)
  {
    var a, rest := FirstReplacement(s, key);
    if Free(KEY_MARK, key) {
      ReplacedIsFree(s, key);
    } else {
      KeyStillShows(a, ReplaceAll(rest, key), key);
    }
  }

  lemma KeyStillShows(a: string, b: string, key: string)
    requires !Free(KEY_MARK, key)
    ensures !Free(a + (KEY_MARK + b), key)
  {
    var k: nat :| k <= |KEY_MARK| && At(KEY_MARK, key, k);
    MarkShows(a, b, key, k);
  }

  lemma MarkShows(a: string, b: string, key: string, k: nat)
    requires At(KEY_MARK, key, k)
    ensures !Free(a + (KEY_MARK + b), key)
  {
    AtLeft(KEY_MARK, b, key, k);
    AtRight(a, KEY_MARK + b, key, k);
    assert At(a + (KEY_MARK + b), key, |a| + k);
  }

  // ---------------------------------------------------------------- what survives

  /** The characters of a data URL in base64 do not end it; quotes and blanks do. */
  lemma StopCharacters(c: char)
    ensures 'a' <= c <= 'z' || 'A' <= c <= 'Z' || '0' <= c <= '9' || c in "+/=:;,.-_%?&#" ==> !Stop(c)
    ensures Stop('"') && Stop('\'') && Stop(' ') && Stop('\t') && Stop('\n') && Stop('\r')
  {
  }

  /** A URL of an image: the prefix and characters that do not end it, up to one that does or the end. */
  predicate IsUrl(url: string, rest: string) {
    At(url, IMAGE_PREFIX, 0) && (forall c | c in url :: !Stop(c)) && (rest == [] || Stop(rest[0]))
  }

  lemma {:induction false} StopIs(s: string, i: nat, e: nat)
    requires i <= e <= |s| && (forall j | i <= j < e :: !Stop(s[j])) && (e < |s| ==> Stop(s[e]))
    ensures StopFrom(s, i) == e
    decreases e - i
  {
    if i < e {
      StopIs(s, i + 1, e);
    }
  }

  /** Exactly the first image URL becomes a mark: the text before it is kept, and the text from its stop character on
      is redacted in turn. */
  lemma RedactsOnlyUrls(a: string, url: string, rest: string)
    requires IsUrl(url, rest)
    requires forall i: nat | i < |a| :: !At(a + (url + rest), IMAGE_PREFIX, i)
    ensures Redact(a + (url + rest)) == a + (IMAGE_MARK + Redact(rest))
  {
    AtLeft(url, rest, IMAGE_PREFIX, 0);
    FirstIs(a, url + rest, IMAGE_PREFIX);
    UrlEnds(a, url, rest);
    Pieces(a, url, rest);
    RedactPieces(a + (url + rest), a, rest, |a| + |url|);
  }

  lemma RedactPieces(s: string, a: string, rest: string, e: nat)
    requires |a| <= e <= |s| && s[..|a|] == a && s[e..] == rest
    requires FindFrom(s, IMAGE_PREFIX, 0) == |a| && StopFrom(s, |a|) == e
    ensures Redact(s) == a + (IMAGE_MARK + Redact(rest))
  {
    RedactFirst(s, |a|, e);
  }

  lemma FirstIs(a: string, b: string, n: string)
    requires At(b, n, 0) && forall i: nat | i < |a| :: !At(a + b, n, i)
    ensures FindFrom(a + b, n, 0) == |a|
  {
    AtRight(a, b, n, 0);
  }

  lemma Pieces(a: string, b: string, c: string)
    ensures (a + (b + c))[..|a|] == a && (a + (b + c))[|a| + |b|..] == c
  {
  }

  lemma UrlEnds(a: string, url: string, rest: string)
    requires IsUrl(url, rest)
    ensures StopFrom(a + (url + rest), |a|) == |a| + |url|
  {
    var s := a + (url + rest);
    forall j | |a| <= j < |a| + |url| ensures !Stop(s[j]) {
      assert s[j] == url[j - |a|];
    }
    StopIs(s, |a|, |a| + |url|);
  }

  lemma RedactFirst(s: string, i: nat, e: nat)
    requires FindFrom(s, IMAGE_PREFIX, 0) == i && i <= |s| && StopFrom(s, i) == e
    ensures Redact(s) == s[..i] + (IMAGE_MARK + Redact(s[e..]))
  {
    StopIsLater(s, i);
  }

  /** A text without an image URL is kept as it is. */
  lemma RedactKeepsPlainText(s: string)
    requires Free(s, IMAGE_PREFIX)
    ensures Redact(s) == s
  {
  }

  /** Exactly the first occurrence of the key becomes a mark, and the rest is treated in turn. */
  lemma ReplacesOnlyTheKey(a: string, key: string, rest: string)
    requires key != [] && forall i: nat | i < |a| :: !At(a + (key + rest), key, i)
    ensures ReplaceAll(a + (key + rest), key) == a + (KEY_MARK + ReplaceAll(rest, key))
  {
    assert key[0..|key|] == key;
    AtLeft(key, rest, key, 0);
    FirstIs(a, key + rest, key);
    Pieces(a, key, rest);
    ReplaceFirst(a + (key + rest), key, |a|, a, rest);
  }

  lemma ReplaceKeepsOtherText(s: string, key: string)
    requires key != [] && Free(s, key)
    ensures ReplaceAll(s, key) == s
  {
  }

  // ---------------------------------------------------------------- the loop

  /** A text whose first `|done|` positions start no image URL. */
  predicate Scanned(done: string, rest: string) {
    forall i: nat | i < |done| :: !At(done + rest, IMAGE_PREFIX, i)
  }

  /** Replacing the first image URL scans everything up to the end of the mark: no occurrence can arise across or
      inside the mark. */
  lemma RoundIsScanned(s: string, start: nat, rest: string)
    requires start == FindFrom(s, IMAGE_PREFIX, 0)
    ensures Scanned(s[..start] + IMAGE_MARK, rest)
  {
    FreePrefix(s, IMAGE_PREFIX, start);
    MarkIsScanned(s[..start], rest);
  }

  lemma MarkIsScanned(done: string, rest: string)
    requires Free(done, IMAGE_PREFIX)
    ensures Scanned(done + IMAGE_MARK, rest)
  {
    MarksAreFree();
    var s := (done + IMAGE_MARK) + rest;
    assert s == done + (IMAGE_MARK + rest);
    forall i: nat | i < |done + IMAGE_MARK| ensures !At(s, IMAGE_PREFIX, i) {
      if At(s, IMAGE_PREFIX, i) {
        NoCrossing(done, IMAGE_MARK, rest, IMAGE_PREFIX, i);
      }
    }
  }

  /** The first image URL of a scanned text is the first one of its rest. */
  lemma FirstIsInRest(done: string, rest: string)
    requires Scanned(done, rest)
    ensures var i, j := FindFrom(done + rest, IMAGE_PREFIX, 0), FindFrom(rest, IMAGE_PREFIX, 0);
            i == if j == -1 then -1 else |done| + j
  {
    var s := done + rest;
    var i, j := FindFrom(s, IMAGE_PREFIX, 0), FindFrom(rest, IMAGE_PREFIX, 0);
    if i != -1 {
      AtRight(done, rest, IMAGE_PREFIX, i - |done|);
    }
    if j != -1 {
      AtRight(done, rest, IMAGE_PREFIX, j);
    }
  }

  lemma {:induction false} StopShift(done: string, rest: string, i: nat)
    requires i <= |rest|
    ensures StopFrom(done + rest, |done| + i) == |done| + StopFrom(rest, i)
    decreases |rest| - i
  {
    if i < |rest| && !Stop(rest[i]) {
      StopShift(done, rest, i + 1);
    }
  }

  /** One round of the loop keeps the redaction of the whole. */
  lemma RoundRedacts(s: string, done: string, rest: string, start: nat, end: nat)
    requires s == done + rest && Scanned(done, rest)
    requires start == FindFrom(s, IMAGE_PREFIX, 0) && end == StopFrom(s, start)
    ensures |s| - end < |rest|
    ensures done + Redact(rest) == (s[..start] + IMAGE_MARK) + Redact(s[end..])
  {
    var j, e := NextUrl(done, rest);
    Glue(s, done, rest, start, end, j, e, Redact(rest[e..]));
  }

  lemma Glue(s: string, done: string, rest: string, start: nat, end: nat, j: nat, e: nat, tail: string)
    requires s == done + rest && j <= e <= |rest| && start == |done| + j && end == |done| + e
    ensures done + (rest[..j] + (IMAGE_MARK + tail)) == (s[..start] + IMAGE_MARK) + tail
    ensures s[end..] == rest[e..]
  {
    assert s[..start] == done + rest[..j];
    Regroup(done, rest[..j], tail);
  }

  lemma NextUrl(done: string, rest: string) returns (j: nat, e: nat)
    requires Scanned(done, rest) && FindFrom(done + rest, IMAGE_PREFIX, 0) != -1
    ensures j < e <= |rest| && Redact(rest) == rest[..j] + (IMAGE_MARK + Redact(rest[e..]))
    ensures FindFrom(done + rest, IMAGE_PREFIX, 0) == |done| + j
    ensures StopFrom(done + rest, |done| + j) == |done| + e
  {
    FirstIsInRest(done, rest);
    j := FindFrom(rest, IMAGE_PREFIX, 0);
    StopIsLater(rest, j);
    StopShift(done, rest, j);
    e := StopFrom(rest, j);
  }

  lemma Regroup(a: string, b: string, c: string)
    ensures a + (b + (IMAGE_MARK + c)) == (a + b + IMAGE_MARK) + c
  {
  }

  /** The loop ends on every text, although a replacement can lengthen it, and computes the one-pass redaction. */
  method RedactImages(text: string) returns (output: string)
    ensures output == Redact(text) && Free(output, IMAGE_PREFIX)
  {
    output := text;
    ghost var done, rest := "", text;
    while true
      invariant output == done + rest && Scanned(done, rest)
      invariant Redact(text) == done + Redact(rest)
      decreases |rest|
    {
      var start := FindFrom(output, IMAGE_PREFIX, 0);
      if start == -1 {
        FirstIsInRest(done, rest);
        break;
      }
      var end := StopFrom(output, start);
      RoundRedacts(output, done, rest, start, end);
      RoundIsScanned(output, start, output[end..]);
      done, rest := output[..start] + IMAGE_MARK, output[end..];
      output := output[..start] + IMAGE_MARK + output[end..];
    }
  }

  /** The sanitised text is a snippet of the redacted one; it shows no image URL and, for a key without brackets
      that is not a part of a mark, no key. */
  method Sanitize(value: string, key: string) returns (output: string)
    ensures var full := Redact(if key == [] then value else ReplaceAll(value, key));
            output == if |full| <= SNIPPET_LIMIT then full else full[..SNIPPET_LIMIT]
    ensures Free(output, IMAGE_PREFIX)
    ensures BracketFree(key) && Free(KEY_MARK, key) && Free(IMAGE_MARK, key) ==> Free(output, key)
  {
    var text := if key == [] then value else ReplaceAll(value, key);
    output := RedactImages(text);
    if BracketFree(key) && Free(KEY_MARK, key) && Free(IMAGE_MARK, key) {
      ReplacedIsFree(value, key);
      RedactKeepsFree(text, key);
    }
    if |output| > SNIPPET_LIMIT {
      FreePrefix(output, IMAGE_PREFIX, SNIPPET_LIMIT);
      if BracketFree(key) && Free(output, key) {
        FreePrefix(output, key, SNIPPET_LIMIT);
      }
      output := output[..SNIPPET_LIMIT];
    }
  }
}
