// Newline delimited text: what the result set writer buffers and the reader
// takes apart again, one line at a time.
module Jsonl {

  // Length of the first line of a non-empty text, its newline included. A
  // text that does not end in a newline has one last unterminated line.
  function LineLength(text: string): (n: nat)
    requires text != ""
    ensures 0 < n <= |text|
  {
    if text[0] == '\n' || |text| == 1 then 1 else 1 + LineLength(text[1..])
  }

  // The pieces that reading up to each '\n' in turn delivers.
  function Lines(text: string): (lines: seq<string>)
  {
    if text == "" then []
    else [text[..LineLength(text)]] + Lines(text[LineLength(text)..])
  }

  // The writer's convention: JSONL is empty or ends in a newline.
  predicate Terminated(text: string) {
    text == "" || text[|text| - 1] == '\n'
  }

  function Join(lines: seq<string>): string {
    if lines == [] then "" else lines[0] + Join(lines[1..])
  }

  lemma {:induction false} LineLengthAppend(a: string, b: string)
    requires a != "" && Terminated(a)
    ensures LineLength(a + b) == LineLength(a)
  {
    if a[0] != '\n' && |a| > 1 {
      assert (a + b)[1..] == a[1..] + b;
      LineLengthAppend(a[1..], b);
    }
  }

  // Appending to terminated text appends lines.
  lemma {:induction false} LinesAppend(a: string, b: string)
    requires Terminated(a)
    ensures Lines(a + b) == Lines(a) + Lines(b)
    decreases |a|
  {
    if a == "" {
      assert a + b == b;
    } else {
      LineLengthAppend(a, b);
      var n := LineLength(a);
      assert (a + b)[..n] == a[..n];
      assert (a + b)[n..] == a[n..] + b;
      LinesAppend(a[n..], b);
      assert [a[..n]] + (Lines(a[n..]) + Lines(b)) == ([a[..n]] + Lines(a[n..])) + Lines(b);
    }
  }

  // Splitting loses no byte.
  lemma {:induction false} JoinLines(text: string)
    ensures Join(Lines(text)) == text
    decreases |text|
  {
    if text != "" {
      var n := LineLength(text);
      JoinLines(text[n..]);
      assert ([text[..n]] + Lines(text[n..]))[1..] == Lines(text[n..]);
      assert text == text[..n] + text[n..];
    }
  }

  lemma {:induction false} JoinAppend(a: seq<string>, b: seq<string>)
    ensures Join(a + b) == Join(a) + Join(b)
  {
    if a == [] {
      assert a + b == b;
    } else {
      assert (a + b)[1..] == a[1..] + b;
      JoinAppend(a[1..], b);
    }
  }

  lemma {:induction false} OneLineLength(json: string)
    requires '\n' !in json
    ensures LineLength(json + "\n") == |json| + 1
  {
    if json != "" {
      assert (json + "\n")[1..] == json[1..] + "\n";
      OneLineLength(json[1..]);
    }
  }

  // A serialised row followed by a newline is exactly one line.
  lemma OneLine(json: string)
    requires '\n' !in json
    ensures Lines(json + "\n") == [json + "\n"]
  {
    OneLineLength(json);
    assert (json + "\n")[..|json| + 1] == json + "\n";
    assert (json + "\n")[|json| + 1..] == "";
  }

  // A piece ends at its first newline, and only the last one may lack it.
  lemma {:induction false} LineLengthExact(text: string)
    requires text != ""
    ensures var n := LineLength(text);
      && (forall k :: 0 <= k < n - 1 ==> text[k] != '\n')
      && (text[n - 1] == '\n' || n == |text|)
  {
    if text[0] != '\n' && |text| > 1 {
      LineLengthExact(text[1..]);
      forall k | 0 <= k < LineLength(text) - 1 ensures text[k] != '\n' {
        if k > 0 { assert text[k] == text[1..][k - 1]; }
      }
    }
  }

  lemma {:induction false} LinesExact(text: string, i: nat)
    requires i < |Lines(text)|
    ensures var line := Lines(text)[i];
      && line != "" && (forall k :: 0 <= k < |line| - 1 ==> line[k] != '\n')
      && (line[|line| - 1] == '\n' || i == |Lines(text)| - 1)
    decreases |text|
  {
    LineLengthExact(text);
    if i > 0 { LinesExact(text[LineLength(text)..], i - 1); }
  }
}
