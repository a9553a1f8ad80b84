/**
 * The sanitiser applied to a chat-completion reply before it reaches the JSON
 * parser: strip the text and, when it opens with a Markdown code fence, drop the
 * fence lines and every remaining fence marker.
 */
module FenceCleaner {
  /** The Markdown code fence. */
  const Fence: string := "```"
  /** A code fence carrying the `json` language tag. */
  const JsonFence: string := "```json"
  const Newline: char := '\n'

  // ----- whitespace and str.strip -----

  /** The characters that Python's `str.isspace` accepts. */
  predicate IsSpace(c: char) {
    || c == ' '
    || '\t' <= c <= '\r'
    || '\U{1C}' <= c <= '\U{1F}'
    || c == '\U{85}' || c == '\U{A0}' || c == '\U{1680}'
    || '\U{2000}' <= c <= '\U{200A}'
    || c == '\U{2028}' || c == '\U{2029}' || c == '\U{202F}' || c == '\U{205F}' || c == '\U{3000}'
  }

  /** Neither the first nor the last character is whitespace. */
  predicate Trimmed(s: string) {
    s != [] ==> !IsSpace(s[0]) && !IsSpace(s[|s| - 1])
  }

  /** The end of the run of whitespace that starts at index `i`. */
  function SpaceRunFrom(s: string, i: nat): (j: nat)
    requires i <= |s|
    ensures i <= j <= |s|
    ensures forall k :: i <= k < j ==> IsSpace(s[k])
    ensures j < |s| ==> !IsSpace(s[j])
    decreases |s| - i
  {
    if i < |s| && IsSpace(s[i]) then SpaceRunFrom(s, i + 1) else i
  }

  /** The start of the run of whitespace that ends just before index `j`. */
  function SpaceRunUntil(s: string, j: nat): (i: nat)
    requires j <= |s|
    ensures i <= j
    ensures forall k :: i <= k < j ==> IsSpace(s[k])
    ensures 0 < i ==> !IsSpace(s[i - 1])
  {
    if 0 < j && IsSpace(s[j - 1]) then SpaceRunUntil(s, j - 1) else j
  }

  /** How many whitespace characters open `s`. */
  function LeadingSpaces(s: string): (n: nat)
    ensures n <= |s|
  {
    SpaceRunFrom(s, 0)
  }

  /**
   * `s.strip()`: `s` without its leading and trailing whitespace. The result is
   * the piece of `s` that starts after the leading run of whitespace, and
   * everything of `s` on either side of it is whitespace.
   */
  function Strip(s: string): (r: string)
    ensures Trimmed(r)
    ensures |r| <= |s| - LeadingSpaces(s)
    ensures forall k :: 0 <= k < |r| ==> r[k] == s[LeadingSpaces(s) + k]
    ensures forall k :: 0 <= k < LeadingSpaces(s) ==> IsSpace(s[k])
    ensures forall k :: LeadingSpaces(s) + |r| <= k < |s| ==> IsSpace(s[k])
  {
    var lo := SpaceRunFrom(s, 0);
    var hi := SpaceRunUntil(s, |s|);
    if lo < hi then s[lo..hi] else []
  }

  /** Stripping a text that has no whitespace at either end leaves it as it is. */
  lemma StripTrimmed(s: string)
    requires Trimmed(s)
    ensures Strip(s) == s
  {
    if s != [] {
      assert SpaceRunFrom(s, 0) == 0;
      assert SpaceRunUntil(s, |s|) == |s|;
      assert s[0..|s|] == s;
    }
  }

  /** Stripping a trimmed text followed by one whitespace character drops just that character. */
  lemma StripTrailingSpace(t: string, c: char)
    requires t != [] && Trimmed(t) && IsSpace(c)
    ensures Strip(t + [c]) == t
  {
    var s := t + [c];
    assert SpaceRunFrom(s, 0) == 0;
    assert SpaceRunUntil(s, |s|) == SpaceRunUntil(s, |t|) == |t|;
    assert s[0..|t|] == t;
  }

  /** Stripping adds no character. */
  lemma StripAddsNothing(s: string, c: char)
    requires c !in s
    ensures c !in Strip(s)
  {
    var r := Strip(s);
    forall k | 0 <= k < |r|
      ensures r[k] != c
    {
      assert r[k] == s[LeadingSpaces(s) + k];
    }
  }

  /** Stripping is idempotent. */
  lemma StripIdempotent(s: string)
    ensures Strip(Strip(s)) == Strip(s)
  {
    StripTrimmed(Strip(s));
  }

  // ----- prefixes and occurrences -----

  predicate StartsWith(s: string, prefix: string) {
    |prefix| <= |s| && s[..|prefix|] == prefix
  }

  /** `pat` occurs in `s` starting at index `i`. */
  predicate OccursAt(pat: string, s: string, i: int) {
    0 <= i <= |s| - |pat| && s[i..i + |pat|] == pat
  }

  /** `pat in s` for a Python string. */
  predicate Occurs(pat: string, s: string) {
    exists i | 0 <= i <= |s| - |pat| :: OccursAt(pat, s, i)
  }

  // ----- str.split and str.join on one separator character -----

  /** `sep.join(lines)`. */
  function Join(lines: seq<string>, sep: char): string {
    if |lines| == 0 then ""
    else if |lines| == 1 then lines[0]
    else lines[0] + [sep] + Join(lines[1..], sep)
  }

  /** Prepending a character to the first line prepends it to the joined text. */
  lemma {:induction false} JoinConsChar(c: char, lines: seq<string>, sep: char)
    requires |lines| >= 1
    ensures Join([[c] + lines[0]] + lines[1..], sep) == [c] + Join(lines, sep)
  {
    var lines' := [[c] + lines[0]] + lines[1..];
    assert lines'[1..] == lines[1..];
  }

  /**
   * `s.split(sep)`: the pieces between the separators, as many as there are
   * separators plus one; joining them back gives `s`.
   */
  function Split(s: string, sep: char): (lines: seq<string>)
    ensures |lines| >= 1
    ensures Join(lines, sep) == s
    ensures forall k :: 0 <= k < |lines| ==> sep !in lines[k]
  {
    if |s| == 0 then [""]
    else if s[0] == sep then
      var rest := Split(s[1..], sep);
      assert ([""] + rest)[1..] == rest;
      [""] + rest
    else
      var rest := Split(s[1..], sep);
      JoinConsChar(s[0], rest, sep);
      [[s[0]] + rest[0]] + rest[1..]
  }

  /** Joining two non-empty runs of lines puts one separator between their joins. */
  lemma {:induction false} JoinAppend(a: seq<string>, b: seq<string>, sep: char)
    requires |a| >= 1 && |b| >= 1
    ensures Join(a + b, sep) == Join(a, sep) + [sep] + Join(b, sep)
    decreases |a|
  {
    if |a| > 1 {
      assert (a + b)[1..] == a[1..] + b;
      JoinAppend(a[1..], b, sep);
    } else {
      assert (a + b)[1..] == b;
    }
  }

  /** A character absent from a join is absent from every joined line. */
  lemma {:induction false} AbsentFromPieces(lines: seq<string>, sep: char, c: char)
    requires c !in Join(lines, sep)
    ensures forall k :: 0 <= k < |lines| ==> c !in lines[k]
  {
    if |lines| > 1 {
      AbsentFromPieces(lines[1..], sep, c);
      forall k | 1 <= k < |lines|
        ensures c !in lines[k]
      {
        assert lines[k] == lines[1..][k - 1];
      }
    }
  }

  /** Splitting a join of separator-free lines gives the lines back. */
  lemma {:induction false} SplitJoin(lines: seq<string>, sep: char)
    requires |lines| >= 1
    requires forall k :: 0 <= k < |lines| ==> sep !in lines[k]
    ensures Split(Join(lines, sep), sep) == lines
    decreases |Join(lines, sep)|
  {
    var s := Join(lines, sep);
    if lines[0] == [] {
      if |lines| > 1 {
        assert s == [sep] + Join(lines[1..], sep);
        assert s[1..] == Join(lines[1..], sep);
        SplitJoin(lines[1..], sep);
      }
    } else {
      var c := lines[0][0];
      var lines' := [lines[0][1..]] + lines[1..];
      assert lines'[1..] == lines[1..];
      assert [c] + lines'[0] == lines[0];
      assert lines == [[c] + lines'[0]] + lines'[1..];
      JoinConsChar(c, lines', sep);
      assert s == [c] + Join(lines', sep);
      assert s[1..] == Join(lines', sep);
      SplitJoin(lines', sep);
    }
  }

  // ----- str.replace(pat, '') -----

  /**
   * `s.replace(pat, '')`: delete the occurrences of `pat` found scanning left to
   * right. Only characters of `pat` are ever deleted: every other character
   * keeps its number of occurrences.
   */
  function RemoveAll(s: string, pat: string): (r: string)
    requires pat != []
    ensures |r| <= |s|
    ensures multiset(r) <= multiset(s)
    ensures forall c :: c !in pat ==> multiset(r)[c] == multiset(s)[c]
    decreases |s|
  {
    if |s| == 0 then ""
    else if StartsWith(s, pat) then
      var r := RemoveAll(s[|pat|..], pat);
      assert s == pat + s[|pat|..];
      r
    else
      var r := RemoveAll(s[1..], pat);
      assert s == [s[0]] + s[1..];
      [s[0]] + r
  }

  /** Removing a pattern that does not occur leaves the text unchanged. */
  lemma {:induction false} RemoveAbsent(s: string, pat: string)
    requires pat != [] && !Occurs(pat, s)
    ensures RemoveAll(s, pat) == s
    decreases |s|
  {
    if |s| > 0 {
      AbsentFromTail(s, pat);
      RemoveAbsent(s[1..], pat);
      assert RemoveAll(s, pat) == [s[0]] + RemoveAll(s[1..], pat);
      assert [s[0]] + s[1..] == s;
    }
  }

  /** A pattern absent from a text neither opens it nor occurs in its tail. */
  lemma AbsentFromTail(s: string, pat: string)
    requires |s| > 0 && !Occurs(pat, s)
    ensures !StartsWith(s, pat) && !Occurs(pat, s[1..])
  {
    assert |pat| <= |s| ==> !OccursAt(pat, s, 0);
    forall i | 0 <= i <= |s[1..]| - |pat|
      ensures !OccursAt(pat, s[1..], i)
    {
      assert s[1..] == s[1..|s|];
      SliceOfSlice(s, 1, |s|, i, i + |pat|);
      assert !OccursAt(pat, s, i + 1);
    }
  }

  /** A pattern that opens with a backtick does not occur in a text without backticks. */
  lemma NoTickNoOccurrence(pat: string, s: string)
    requires pat != [] && pat[0] == '`' && '`' !in s
    ensures !Occurs(pat, s)
  {
    forall i | 0 <= i <= |s| - |pat|
      ensures !OccursAt(pat, s, i)
    {
      assert s[i..i + |pat|][0] == s[i] != pat[0];
    }
  }

  /** A text without backticks is left alone by the removal of any pattern that opens with one. */
  lemma NoTickRemoval(pat: string, s: string)
    requires pat != [] && pat[0] == '`' && '`' !in s
    ensures RemoveAll(s, pat) == s
  {
    NoTickNoOccurrence(pat, s);
    RemoveAbsent(s, pat);
  }

  /** A text that does not open with two backticks keeps that property once fences are removed. */
  lemma NoDoubleTickAfterRemoval(u: string)
    requires !StartsWith(u, "``")
    ensures !StartsWith(RemoveAll(u, Fence), "``")
  {
    if |u| > 0 {
      assert !StartsWith(u, Fence);
      if u[0] == '`' && |u| > 1 {
        assert u[..2] == [u[0], u[1]];
        assert !StartsWith(u[1..], Fence);
      }
    }
  }

  /** A character put before a fence-free text creates no fence unless it completes a leading "``". */
  lemma ConsNoFence(c: char, t: string)
    requires !Occurs(Fence, t)
    requires c == '`' ==> !StartsWith(t, "``")
    ensures !Occurs(Fence, [c] + t)
  {
    assert |Fence| == 3;
    var r := [c] + t;
    forall i | 0 <= i <= |r| - 3
      ensures !OccursAt(Fence, r, i)
    {
      if i > 0 {
        assert t == r[1..];
        SliceOfSlice(r, 1, |r|, i - 1, i + 2);
        assert !OccursAt(Fence, t, i - 1);
      } else if c == '`' {
        assert r[0..3][1..3] == t[..2] != Fence[1..3];
      } else {
        assert r[0..3][0] != Fence[0];
      }
    }
  }

  /**
   * Removing every fence leaves no fence behind: within each run of backticks
   * whole fences are deleted and at most two backticks survive.
   */
  lemma {:induction false} RemoveAllFences(s: string)
    ensures !Occurs(Fence, RemoveAll(s, Fence))
    decreases |s|
  {
    if |s| == 0 {
    } else if StartsWith(s, Fence) {
      RemoveAllFences(s[3..]);
    } else {
      RemoveAllFences(s[1..]);
      if s[0] == '`' {
        assert !StartsWith(s[1..], "``");
        NoDoubleTickAfterRemoval(s[1..]);
      }
      ConsNoFence(s[0], RemoveAll(s[1..], Fence));
    }
  }

  lemma SliceOfSlice(s: string, lo: nat, hi: nat, i: nat, j: nat)
    requires lo <= hi <= |s| && i <= j <= hi - lo
    ensures s[lo..hi][i..j] == s[lo + i..lo + j]
  {
    var a, b := s[lo..hi][i..j], s[lo + i..lo + j];
    assert forall k | 0 <= k < |a| :: a[k] == b[k];
  }

  /** A piece of a fence-free text is fence-free. */
  lemma NoFenceInSlice(s: string, lo: nat, hi: nat)
    requires lo <= hi <= |s| && !Occurs(Fence, s)
    ensures !Occurs(Fence, s[lo..hi])
  {
    assert |Fence| == 3;
    forall i | 0 <= i <= hi - lo - 3
      ensures !OccursAt(Fence, s[lo..hi], i)
    {
      SliceOfSlice(s, lo, hi, i, i + 3);
      assert !OccursAt(Fence, s, lo + i);
    }
  }

  /** Stripping a fence-free text keeps it fence-free. */
  lemma NoFenceAfterStrip(s: string)
    requires !Occurs(Fence, s)
    ensures !Occurs(Fence, Strip(s))
  {
    var lo := LeadingSpaces(s);
    var r := Strip(s);
    NoFenceInSlice(s, lo, lo + |r|);
    assert r == s[lo..lo + |r|];
  }

  // ----- the cleaner -----

  /**
   * The lines kept from a fenced reply: the opening line is always dropped, and
   * the last line is dropped too exactly when, stripped, it is a bare fence.
   * A single line is the opening line, so nothing is kept.
   */
  function DropFenceLines(lines: seq<string>): (kept: seq<string>)
    requires |lines| >= 1
    ensures |kept| == if |lines| >= 2 && Strip(lines[|lines| - 1]) == Fence then |lines| - 2 else |lines| - 1
    ensures forall k :: 0 <= k < |kept| ==> kept[k] == lines[k + 1]
  {
    if |lines| >= 2 && Strip(lines[|lines| - 1]) == Fence then lines[1..|lines| - 1] else lines[1..]
  }

  /**
   * The cleaned reply. A reply that, stripped, does not open with a fence is
   * only stripped; a fenced reply loses its fence lines and every remaining
   * fence marker, and is stripped again.
   */
  function CleanReply(raw: string): (r: string)
    ensures !StartsWith(Strip(raw), Fence) ==> r == Strip(raw)
    ensures StartsWith(Strip(raw), Fence) ==> !Occurs(Fence, r)
    ensures Trimmed(r)
  {
    var text := Strip(raw);
    if StartsWith(text, Fence) then
      var body := Join(DropFenceLines(Split(text, Newline)), Newline);
      var unfenced := RemoveAll(RemoveAll(body, JsonFence), Fence);
      RemoveAllFences(RemoveAll(body, JsonFence));
      NoFenceAfterStrip(unfenced);
      Strip(unfenced)
    else text
  }

  /** Cleaning an already cleaned reply changes nothing. */
  lemma CleanIdempotent(raw: string)
    ensures CleanReply(CleanReply(raw)) == CleanReply(raw)
  {
    var r := CleanReply(raw);
    StripTrimmed(r);
    assert Strip(r) == r;
    if StartsWith(Strip(raw), Fence) {
      assert !StartsWith(r, Fence) by {
        if StartsWith(r, Fence) { assert OccursAt(Fence, r, 0); }
      }
    } else {
      assert !StartsWith(r, Fence);
    }
  }

  /**
   * A fenced JSON reply comes back as the JSON text it wraps, whether or not
   * the closing fence is there, when that text holds no backtick and has no
   * whitespace at either end.
   */
  lemma FencedJsonIntact(json: string)
    requires '`' !in json && Trimmed(json)
    ensures CleanReply(JsonFence + [Newline] + json + [Newline] + Fence) == json
    ensures CleanReply(JsonFence + [Newline] + json) == json
  {
    var pieces := Split(json, Newline);
    ClosedFenceIntact(json, pieces);
    OpenFenceIntact(json, pieces);
  }

  /** How the cleaner treats a reply that opens with a fence once stripped. */
  lemma CleanFenced(raw: string)
    requires StartsWith(Strip(raw), Fence)
    ensures CleanReply(raw) ==
      Strip(RemoveAll(RemoveAll(Join(DropFenceLines(Split(Strip(raw), Newline)), Newline), JsonFence), Fence))
  {
  }

  /** How the cleaner treats a reply that has no whitespace at either end and opens with a fence. */
  lemma CleanTrimmedFenced(raw: string)
    requires Trimmed(raw) && StartsWith(raw, Fence)
    ensures CleanReply(raw) ==
      Strip(RemoveAll(RemoveAll(Join(DropFenceLines(Split(raw, Newline)), Newline), JsonFence), Fence))
  {
    StripTrimmed(raw);
    CleanFenced(raw);
  }

  /** The kept lines of a fenced reply, cleaned, are the body itself when it holds no backtick. */
  lemma BodyIntact(json: string, lines: seq<string>)
    requires '`' !in json && Trimmed(json)
    requires |lines| >= 1 && DropFenceLines(lines) == Split(json, Newline)
    ensures Strip(RemoveAll(RemoveAll(Join(DropFenceLines(lines), Newline), JsonFence), Fence)) == json
  {
    NoTickRemoval(JsonFence, json);
    NoTickRemoval(Fence, json);
    StripTrimmed(json);
  }

  /** The lines of an opening line, a body and a closing line. */
  lemma SplitClosed(first: string, json: string, last: string)
    requires Newline !in first && Newline !in last
    ensures Split(first + [Newline] + json + [Newline] + last, Newline)
      == [first] + Split(json, Newline) + [last]
  {
    var pieces := Split(json, Newline);
    var tail := pieces + [last];
    JoinAppend(pieces, [last], Newline);
    assert Join(tail, Newline) == json + [Newline] + last;
    JoinAppend([first], tail, Newline);
    var lines := [first] + tail;
    assert Join(lines, Newline) == first + [Newline] + json + [Newline] + last;
    forall k | 0 <= k < |lines|
      ensures Newline !in lines[k]
    {
      if 0 < k < |lines| - 1 {
        assert lines[k] == pieces[k - 1];
      }
    }
    SplitJoin(lines, Newline);
    assert lines == [first] + pieces + [last];
  }

  /** The lines of an opening line followed by a body. */
  lemma SplitOpen(first: string, json: string)
    requires Newline !in first
    ensures Split(first + [Newline] + json, Newline) == [first] + Split(json, Newline)
  {
    var pieces := Split(json, Newline);
    JoinAppend([first], pieces, Newline);
    SplitJoin([first] + pieces, Newline);
  }

  /** A line without backticks is no fence, however it is stripped. */
  lemma NoTickNoFence(line: string)
    requires '`' !in line
    ensures Strip(line) != Fence
  {
    StripAddsNothing(line, '`');
    assert '`' in Fence;
  }

  lemma ClosedFenceIntact(json: string, pieces: seq<string>)
    requires '`' !in json && Trimmed(json) && pieces == Split(json, Newline)
    ensures CleanReply(JsonFence + [Newline] + json + [Newline] + Fence) == json
  {
    var raw := JsonFence + [Newline] + json + [Newline] + Fence;
    var lines := [JsonFence] + pieces + [Fence];
    assert Newline !in JsonFence && Newline !in Fence;
    SplitClosed(JsonFence, json, Fence);
    assert raw[0] == '`' && raw[|raw| - 1] == '`';
    assert raw[..3] == Fence;
    CleanTrimmedFenced(raw);
    StripTrimmed(Fence);
    assert DropFenceLines(lines) == lines[1..|lines| - 1] == pieces;
    BodyIntact(json, lines);
  }

  lemma OpenFenceIntact(json: string, pieces: seq<string>)
    requires '`' !in json && Trimmed(json) && pieces == Split(json, Newline)
    ensures CleanReply(JsonFence + [Newline] + json) == json
  {
    if json == [] {
      assert JsonFence + [Newline] + json == JsonFence + [Newline];
      assert JsonFence[..3] == Fence && Newline !in JsonFence;
      OpenFenceEmpty(JsonFence);
    } else {
      OpenFenceNonEmpty(json, pieces);
    }
  }

  lemma OpenFenceNonEmpty(json: string, pieces: seq<string>)
    requires '`' !in json && Trimmed(json) && pieces == Split(json, Newline) && json != []
    ensures CleanReply(JsonFence + [Newline] + json) == json
  {
    var raw := JsonFence + [Newline] + json;
    var lines := [JsonFence] + pieces;
    assert Newline !in JsonFence;
    SplitOpen(JsonFence, json);
    assert Trimmed(raw) by {
      assert raw[0] == '`' && raw[|raw| - 1] == json[|json| - 1];
    }
    assert raw[..3] == Fence;
    CleanTrimmedFenced(raw);
    AbsentFromPieces(pieces, Newline, '`');
    KeepBodyLines(pieces);
    BodyIntact(json, lines);
  }

  /** When the last line holds no backtick, every line after the opening one is kept. */
  lemma KeepBodyLines(pieces: seq<string>)
    requires |pieces| >= 1 && '`' !in pieces[|pieces| - 1]
    ensures DropFenceLines([JsonFence] + pieces) == pieces
  {
    var lines := [JsonFence] + pieces;
    var last := pieces[|pieces| - 1];
    NoTickNoFence(last);
    assert lines[|lines| - 1] == last && Strip(last) != Fence;
    var kept := DropFenceLines(lines);
    assert |kept| == |pieces|;
    forall k | 0 <= k < |kept|
      ensures kept[k] == pieces[k]
    {
      assert kept[k] == lines[k + 1];
    }
  }

  /** An opening fence line and nothing else cleans to the empty text. */
  lemma OpenFenceEmpty(first: string)
    requires StartsWith(first, Fence) && Trimmed(first) && Newline !in first
    ensures CleanReply(first + [Newline]) == ""
  {
    var raw := first + [Newline];
    StripTrailingSpace(first, Newline);
    assert Join([first], Newline) == first;
    SplitJoin([first], Newline);
    CleanFenced(raw);
    assert DropFenceLines([first]) == [];
    assert RemoveAll(RemoveAll(Join([], Newline), JsonFence), Fence) == [];
    assert Strip([]) == [];
  }
}
