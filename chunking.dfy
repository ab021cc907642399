/** `splitMessage` (index.cjs:70-78): cuts a text into parts of at most
    `maxLength` characters, line by line, so that each part can be sent as one
    chat message. Every line keeps a trailing newline, and a part is closed as
    soon as the next line would push it over the budget. */
module Chunking {
  import opened Text

  /** `text.split('\n')`: the pieces between newlines, in order. */
  function Split(text: string): (lines: seq<string>)
    ensures |lines| >= 1
    ensures forall k :: 0 <= k < |lines| ==> '\n' !in lines[k]
  {
    if text == [] then [""]
    else
      var rest := Split(text[1..]);
      if text[0] == '\n' then [""] + rest
      else [[text[0]] + rest[0]] + rest[1..]
  }

  /** Each line followed by a newline, all concatenated. */
  function Join(lines: seq<string>): string {
    if lines == [] then "" else lines[0] + "\n" + Join(lines[1..])
  }

  /** The parts glued back together. */
  function Concat(parts: seq<string>): string {
    if parts == [] then "" else Concat(parts[..|parts| - 1]) + parts[|parts| - 1]
  }

  /** Splitting at newlines and putting a newline after every piece gives the
      text back with one more newline at the end. */
  lemma {:induction false} JoinSplit(text: string)
    ensures Join(Split(text)) == text + "\n"
  {
    if text != [] {
      var rest := Split(text[1..]);
      JoinSplit(text[1..]);
      if text[0] == '\n' {
        assert Split(text) == [""] + rest;
        assert Join(Split(text)) == "\n" + Join(rest);
      } else {
        var lines := Split(text);
        assert lines[1..] == rest[1..];
        calc {
          Join(lines);
          [text[0]] + rest[0] + "\n" + Join(rest[1..]);
          [text[0]] + Join(rest);
          [text[0]] + text[1..] + "\n";
        }
      }
      assert [text[0]] + text[1..] == text;
    }
  }

  /** Newline-free lines are recovered by splitting their join, without the
      final newline. */
  lemma {:induction false} SplitJoin(lines: seq<string>)
    requires |lines| >= 1
    requires forall k :: 0 <= k < |lines| ==> '\n' !in lines[k]
    ensures Split(Join(lines)[..|Join(lines)| - 1]) == lines
  {
    JoinLength(lines);
    var text := Join(lines)[..|Join(lines)| - 1];
    var s := Split(text);
    JoinSplit(text);
    assert Join(lines) == text + "\n";
    JoinInjective(s, lines);
  }

  lemma {:induction false} JoinLength(lines: seq<string>)
    ensures |Join(lines)| >= |lines|
    ensures lines != [] ==> Join(lines)[|Join(lines)| - 1] == '\n'
  {
    if lines != [] {
      JoinLength(lines[1..]);
    }
  }

  /** Join is one-to-one on newline-free lines. */
  lemma {:induction false} JoinInjective(a: seq<string>, b: seq<string>)
    requires forall k :: 0 <= k < |a| ==> '\n' !in a[k]
    requires forall k :: 0 <= k < |b| ==> '\n' !in b[k]
    requires Join(a) == Join(b)
    ensures a == b
  {
    if a != [] && b != [] {
      var ja, jb := Join(a), Join(b);
      assert ja == a[0] + ['\n'] + Join(a[1..]) && jb == b[0] + ['\n'] + Join(b[1..]);
      IndexOfAfter(a[0], '\n', Join(a[1..]));
      IndexOfAfter(b[0], '\n', Join(b[1..]));
      assert a[0] == ja[..|a[0]|] && b[0] == jb[..|b[0]|];
      assert Join(a[1..]) == ja[|a[0]| + 1..];
      assert Join(b[1..]) == jb[|b[0]| + 1..];
      JoinInjective(a[1..], b[1..]);
      assert a == [a[0]] + a[1..] && b == [b[0]] + b[1..];
    }
  }

  /** One turn of the loop body: the part under construction is pushed when
      the next line would make it too long, and the line is appended. Lengths
      are JavaScript's `.length`, in UTF-16 code units. */
  function Step(parts: seq<string>, current: string, line: string, maxLength: nat): (seq<string>, string) {
    if Overflows(current, line, maxLength) then (parts + [current], line + "\n")
    else (parts, current + line + "\n")
  }

  /** `(current + line + '\n').length > maxLength`, counted piece by piece
      (`OverflowsMeasuresJoin` shows it is the length of the concatenation). */
  predicate Overflows(current: string, line: string, maxLength: nat) {
    Utf16Length(current) + Utf16Length(line) + 1 > maxLength
  }

  lemma OverflowsMeasuresJoin(current: string, line: string, maxLength: nat)
    ensures Overflows(current, line, maxLength) <==> Utf16Length(current + line + "\n") > maxLength
  {
    Utf16LengthAppend(current, line);
    Utf16LengthAppend(current + line, "\n");
  }

  /** The loop over the remaining lines and the final push of a non-empty
      part in progress: the meaning of `splitMessage`. */
  function Chunks(lines: seq<string>, parts: seq<string>, current: string, maxLength: nat): seq<string> {
    if lines == [] then
      if |current| > 0 then parts + [current] else parts
    else
      var next := Step(parts, current, lines[0], maxLength);
      Chunks(lines[1..], next.0, next.1, maxLength)
  }

  function MessageParts(text: string, maxLength: nat): seq<string> {
    Chunks(Split(text), [], "", maxLength)
  }

  /** `splitMessage(text, maxLength)`. */
  method SplitMessage(text: string, maxLength: nat) returns (parts: seq<string>)
    ensures parts == MessageParts(text, maxLength)
    ensures Concat(parts) == text + "\n"
    ensures |parts| >= 1 && parts[|parts| - 1] != ""
    ensures forall k :: 0 <= k < |parts| ==> WithinBudget(parts[k], maxLength)
    ensures forall k :: 1 <= k < |parts| ==> parts[k] != ""
    ensures parts[0] == "" <==> Utf16Length(Split(text)[0]) + 1 > maxLength
  {
    var lines := Split(text);
    parts := [];
    var current := "";
    for i := 0 to |lines|
      invariant Chunks(lines[i..], parts, current, maxLength) == MessageParts(text, maxLength)
    {
      assert lines[i..] == [lines[i]] + lines[i + 1..];
      var next := Step(parts, current, lines[i], maxLength);
      OverflowsMeasuresJoin(current, lines[i], maxLength);
      if Utf16Length(current + lines[i] + "\n") > maxLength {
        parts := parts + [current];
        current := "";
        assert current + lines[i] + "\n" == lines[i] + "\n";
      }
      current := current + lines[i] + "\n";
      assert (parts, current) == next;
    }
    if |current| > 0 {
      parts := parts + [current];
    }
    MessagePartsConcat(text, maxLength);
    MessagePartsShape(text, maxLength);
  }

  // ---------------------------------------------------------------------------
  // What the parts look like

  /** A single line with its newline: only such a part may exceed the budget. */
  predicate OneLine(part: string) {
    |part| >= 1 && part[|part| - 1] == '\n' && '\n' !in part[..|part| - 1]
  }

  predicate WithinBudget(part: string, maxLength: nat) {
    Utf16Length(part) <= maxLength || OneLine(part)
  }

  lemma {:induction false} ConcatAppend(parts: seq<string>, p: string)
    ensures Concat(parts + [p]) == Concat(parts) + p
  {
    assert (parts + [p])[..|parts|] == parts;
  }

  /** No text is lost or added: the parts concatenate to what has been
      collected so far followed by the remaining lines. */
  lemma {:induction false} ChunksConcat(lines: seq<string>, parts: seq<string>, current: string, maxLength: nat)
    ensures Concat(Chunks(lines, parts, current, maxLength)) == Concat(parts) + current + Join(lines)
  {
    if lines == [] {
      if |current| > 0 {
        ConcatAppend(parts, current);
      }
    } else {
      var line := lines[0];
      var next := Step(parts, current, line, maxLength);
      ChunksConcat(lines[1..], next.0, next.1, maxLength);
      StepConcat(parts, current, line, maxLength);
      calc {
        Concat(Chunks(lines, parts, current, maxLength));
        Concat(Chunks(lines[1..], next.0, next.1, maxLength));
        Concat(next.0) + next.1 + Join(lines[1..]);
        (Concat(parts) + current + line + "\n") + Join(lines[1..]);
        Concat(parts) + current + (line + "\n" + Join(lines[1..]));
      }
    }
  }

  /** One turn of the loop keeps the text collected so far. */
  lemma StepConcat(parts: seq<string>, current: string, line: string, maxLength: nat)
    ensures var next := Step(parts, current, line, maxLength);
      Concat(next.0) + next.1 == Concat(parts) + current + line + "\n"
  {
    ConcatAppend(parts, current);
  }

  /** `splitMessage` is lossless: its parts concatenate to the text plus a
      final newline. */
  lemma MessagePartsConcat(text: string, maxLength: nat)
    ensures Concat(MessageParts(text, maxLength)) == text + "\n"
  {
    ChunksConcat(Split(text), [], "", maxLength);
    JoinSplit(text);
  }

  /** The shape invariant of the loop: every part collected is within budget,
      only a first part can be empty, and the part in progress is empty only
      before the first line. */
  lemma {:induction false} ChunksShape(lines: seq<string>, parts: seq<string>, current: string, maxLength: nat)
    requires forall k :: 0 <= k < |lines| ==> '\n' !in lines[k]
    requires forall k :: 0 <= k < |parts| ==> WithinBudget(parts[k], maxLength)
    requires WithinBudget(current, maxLength) && current != ""
    ensures var r := Chunks(lines, parts, current, maxLength);
      && |r| > |parts| && r[..|parts|] == parts && r[|r| - 1] != ""
      && (forall k :: 0 <= k < |r| ==> WithinBudget(r[k], maxLength))
      && (forall k :: |parts| <= k < |r| ==> r[k] != "")
  {
    if lines != [] {
      var line := lines[0];
      var next := Step(parts, current, line, maxLength);
      assert (line + "\n")[..|line|] == line;
      OverflowsMeasuresJoin(current, line, maxLength);
      ChunksShape(lines[1..], next.0, next.1, maxLength);
      var r := Chunks(lines, parts, current, maxLength);
      assert r[..|parts|] == r[..|next.0|][..|parts|];
    }
  }

  /** The shape of `splitMessage`'s result: at least one part, the last one
      non-empty; every part is within budget unless it is one over-long line;
      an empty part can only come first, and does exactly when the first line
      alone is over budget. */
  lemma MessagePartsShape(text: string, maxLength: nat)
    ensures var r := MessageParts(text, maxLength);
      && |r| >= 1 && r[|r| - 1] != ""
      && (forall k :: 0 <= k < |r| ==> WithinBudget(r[k], maxLength))
      && (forall k :: 1 <= k < |r| ==> r[k] != "")
      && (r[0] == "" <==> Utf16Length(Split(text)[0]) + 1 > maxLength)
  {
    var lines := Split(text);
    var first := lines[0];
    var next := Step([], "", first, maxLength);
    assert MessageParts(text, maxLength) == Chunks(lines[1..], next.0, next.1, maxLength);
    assert (first + "\n")[..|first|] == first;
    OverflowsMeasuresJoin("", first, maxLength);
    assert WithinBudget(next.1, maxLength);
    ChunksShape(lines[1..], next.0, next.1, maxLength);
    if Utf16Length(first) + 1 > maxLength {
      assert next.0 == [""];
    }
  }
}
