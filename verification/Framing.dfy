/** Splitting a character stream into lines, however it is cut into chunks. */
module Framing {
  import opened Ordering

  /** The complete lines of a text and what follows the last newline. */
  datatype Framed = Framed(lines: seq<string>, rest: string)

  function NewlineAt(text: string): (k: nat)
    requires '\n' in text
    ensures k < |text| && text[k] == '\n' && '\n' !in text[..k]
  {
    if text[0] == '\n' then 0
    else
      var k := NewlineAt(text[1..]) + 1;
      assert text[..k] == [text[0]] + text[1..][..k - 1];
      k
  }

  function Frame(text: string): Framed {
    if '\n' !in text then Framed([], text)
    else
      var k := NewlineAt(text);
      var after := Frame(text[k + 1..]);
      Framed([text[..k]] + after.lines, after.rest)
  }

  /** The text the lines and the rest came from. */
  function Unframe(lines: seq<string>, rest: string): string {
    if lines == [] then rest else lines[0] + ("\n" + Unframe(lines[1..], rest))
  }

  lemma {:induction false} NewlineAfter(head: string, tail: string)
    requires '\n' !in head
    ensures '\n' in head + ("\n" + tail) && NewlineAt(head + ("\n" + tail)) == |head|
  {
    var text := head + ("\n" + tail);
    assert text[|head|] == '\n';
    if head != "" {
      assert text[1..] == head[1..] + ("\n" + tail);
      NewlineAfter(head[1..], tail);
    }
  }

  function Prepend(line: string, f: Framed): Framed {
    Framed([line] + f.lines, f.rest)
  }

  function Join(f: Framed, g: Framed): Framed {
    Framed(f.lines + g.lines, g.rest)
  }

  lemma JoinPrepend(line: string, f: Framed, g: Framed)
    ensures Join(Prepend(line, f), g) == Prepend(line, Join(f, g))
  {
    assert ([line] + f.lines) + g.lines == [line] + (f.lines + g.lines);
  }

  lemma FrameStep(head: string, tail: string)
    requires '\n' !in head
    ensures Frame(head + ("\n" + tail)) == Prepend(head, Frame(tail))
  {
    var text := head + ("\n" + tail);
    NewlineAfter(head, tail);
    assert text[..|head|] == head && text[|head| + 1..] == tail;
  }

  lemma SplitAtNewline(text: string) returns (head: string, tail: string)
    requires '\n' in text
    ensures '\n' !in head && text == head + ("\n" + tail) && |tail| < |text|
  {
    var k := NewlineAt(text);
    head, tail := text[..k], text[k + 1..];
  }

  /** Framing loses nothing: no line holds a newline, and the parts give the text back. */
  lemma {:induction false} FrameIsExact(text: string)
    ensures Unframe(Frame(text).lines, Frame(text).rest) == text
    ensures '\n' !in Frame(text).rest && forall line | line in Frame(text).lines :: '\n' !in line
    decreases |text|
  {
    if '\n' in text {
      var head, tail := SplitAtNewline(text);
      FrameIsExact(tail);
      FrameStep(head, tail);
      assert ([head] + Frame(tail).lines)[1..] == Frame(tail).lines;
    }
  }

  /** And it is the only way: any lines and rest without newlines frame back to themselves. */
  lemma {:induction false} FrameIsUnique(lines: seq<string>, rest: string)
    requires '\n' !in rest && forall line | line in lines :: '\n' !in line
    ensures Frame(Unframe(lines, rest)) == Framed(lines, rest)
  {
    if lines != [] {
      FrameIsUnique(lines[1..], rest);
      assert lines[0] in lines;
      FrameStep(lines[0], Unframe(lines[1..], rest));
      assert lines == [lines[0]] + lines[1..];
    }
  }

  lemma AppendToTail(head: string, tail: string, b: string)
    ensures (head + ("\n" + tail)) + b == head + ("\n" + (tail + b))
  {
  }

  lemma AppendStep(head: string, tail: string, b: string, a: string, ab: string)
    requires '\n' !in head && Frame(tail + b) == Join(Frame(tail), Frame(Frame(tail).rest + b))
    requires a == head + ("\n" + tail) && ab == head + ("\n" + (tail + b))
    ensures Frame(ab) == Join(Frame(a), Frame(Frame(a).rest + b))
  {
    FrameStep(head, tail);
    FrameStep(head, tail + b);
    JoinPrepend(head, Frame(tail), Frame(Frame(tail).rest + b));
  }

  /** Framing a stream in two pieces: the rest of the first piece is carried into the second. */
  lemma {:induction false} FrameAppend(a: string, b: string)
    ensures Frame(a + b) == Join(Frame(a), Frame(Frame(a).rest + b))
    decreases |a|
  {
    if '\n' in a {
      var head, tail := SplitAtNewline(a);
      FrameAppend(tail, b);
      AppendToTail(head, tail, b);
      AppendStep(head, tail, b, a, a + b);
    } else {
    }
  }

  /** One carriage return before the newline belongs to the line ending. */
  function StripReturn(line: string): string {
    if line != "" && line[|line| - 1] == '\r' then line[..|line| - 1] else line
  }

  ghost predicate EndsWithReturn(line: string) {
    exists head: string :: line == head + "\r"
  }

  lemma StripOneReturn(text: string)
    ensures StripReturn(text + "\r") == text
    ensures !EndsWithReturn(text) ==> StripReturn(text) == text
  {
    if text != "" && text[|text| - 1] == '\r' { assert text == text[..|text| - 1] + "\r"; }
  }

  function WithReturns(lines: seq<string>): (r: seq<string>)
    ensures |r| == |lines| && forall i | 0 <= i < |lines| :: r[i] == lines[i] + "\r"
  {
    seq(|lines|, i requires 0 <= i < |lines| => lines[i] + "\r")
  }
}
