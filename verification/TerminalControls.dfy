/** Removing terminal control sequences: scripts/terminal-controls.ts. */
module TerminalControls {
  import opened Ordering

  const BEL: char := '\U{0007}'
  const CR: char := '\U{000D}'
  const ESC: char := '\U{001B}'

  /** A CSI sequence ends at a byte from 0x40 to 0x7e (section 5.4 of ECMA-48). */
  predicate IsFinal(c: char) {
    0x40 as char <= c <= 0x7e as char
  }

  // ---------- the scan ----------

  /** The index just after the final byte of a CSI sequence whose parameters start at `i`. */
  function AfterCsi(s: string, i: nat): (j: nat)
    ensures j >= i && (i < |s| ==> j > i)
    decreases |s| - i
  {
    if i >= |s| then i + 1 else if IsFinal(s[i]) then i + 1 else AfterCsi(s, i + 1)
  }

  /** The index just after the terminator of an OSC sequence whose text starts at `i`. */
  function AfterOsc(s: string, i: nat): (j: nat)
    ensures j > i
    decreases |s| - i
  {
    if i >= |s| then i + 1
    else if s[i] == BEL then i + 1
    else if s[i] == ESC && i + 1 < |s| && s[i + 1] == '\\' then i + 2
    else AfterOsc(s, i + 1)
  }

  /** The index after the escape sequence that starts at `i`. */
  function AfterEscape(s: string, i: nat): (j: nat)
    requires i < |s| && s[i] == ESC
    ensures j > i
  {
    if i + 1 >= |s| then i + 1
    else if s[i + 1] == '[' then AfterCsi(s, i + 2)
    else if s[i + 1] == ']' then AfterOsc(s, i + 2)
    else i + 2
  }

  /** What is left of `s` from index `i` on. */
  function Strip(s: string, i: nat): string
    decreases |s| - i
  {
    if i >= |s| then ""
    else if s[i] == CR then Strip(s, i + 1)
    else if s[i] != ESC then [s[i]] + Strip(s, i + 1)
    else Strip(s, AfterEscape(s, i))
  }

  method StripTerminalControls(output: string) returns (visible: string)
    ensures visible == Strip(output, 0)
  {
    visible := "";
    var index := 0;
    while index < |output|
      invariant visible + Strip(output, index) == Strip(output, 0)
      decreases |output| - index
    {
      var c := output[index];
      if c == CR {
        index := index + 1;
        continue;
      }
      if c != ESC {
        visible := visible + [c];
        index := index + 1;
        continue;
      }
      ghost var start := index;
      if index + 1 < |output| && output[index + 1] == '[' {
        index := index + 2;
        while index < |output| && !IsFinal(output[index])
          invariant AfterCsi(output, index) == AfterEscape(output, start) && index > start
        {
          index := index + 1;
        }
        index := index + 1;
      } else if index + 1 < |output| && output[index + 1] == ']' {
        index := index + 2;
        while index < |output|
          invariant AfterOsc(output, index) == AfterEscape(output, start) && index > start
        {
          if output[index] == BEL {
            break;
          }
          if output[index] == ESC && index + 1 < |output| && output[index + 1] == '\\' {
            index := index + 1;
            break;
          }
          index := index + 1;
        }
        index := index + 1;
      } else {
        index := if index + 1 < |output| then index + 2 else index + 1;
      }
    }
  }

  // ---------- the grammar of terminal output ----------

  datatype Token =
    | Plain(c: char)
    | Csi(parameters: string, final: char)
    | Osc(text: string, bell: bool)
    | Short(c: char)

  /** What an output may end with: a control sequence that is not complete. */
  datatype Tail = NoTail | LoneEscape | OpenCsi(parameters: string) | OpenOsc(text: string)

  ghost predicate NoFinal(parameters: string) {
    forall i | 0 <= i < |parameters| :: !('@' <= parameters[i] <= '~')
  }

  /** OSC text holds no terminator: no BEL, and no ESC followed by a backslash. */
  ghost predicate NoTerminator(text: string) {
    && (forall i | 0 <= i < |text| :: text[i] != '\U{0007}')
    && (forall i | 0 <= i < |text| - 1 :: text[i] == '\U{001B}' ==> text[i + 1] != '\\')
  }

  ghost predicate ValidToken(t: Token) {
    match t
    case Plain(c) => c != '\U{001B}'
    case Csi(parameters, final) => NoFinal(parameters) && '@' <= final <= '~'
    case Osc(text, _) => NoTerminator(text)
    case Short(c) => c != '[' && c != ']'
  }

  ghost predicate ValidTail(t: Tail) {
    match t
    case NoTail => true
    case LoneEscape => true
    case OpenCsi(parameters) => NoFinal(parameters)
    case OpenOsc(text) => NoTerminator(text)
  }

  ghost function Render(t: Token): string {
    match t
    case Plain(c) => [c]
    case Csi(parameters, final) => ['\U{001B}', '['] + parameters + [final]
    case Osc(text, bell) => ['\U{001B}', ']'] + text + (if bell then ['\U{0007}'] else ['\U{001B}', '\\'])
    case Short(c) => ['\U{001B}', c]
  }

  ghost function RenderTail(t: Tail): string {
    match t
    case NoTail => ""
    case LoneEscape => ['\U{001B}']
    case OpenCsi(parameters) => ['\U{001B}', '['] + parameters
    case OpenOsc(text) => ['\U{001B}', ']'] + text
  }

  ghost function RenderAll(tokens: seq<Token>): string {
    if tokens == [] then "" else Render(tokens[0]) + RenderAll(tokens[1..])
  }

  /** The plain text of the tokens, without carriage returns. */
  ghost function PlainText(tokens: seq<Token>): string {
    if tokens == [] then ""
    else PlainOf(tokens[0]) + PlainText(tokens[1..])
  }

  ghost predicate AllValid(tokens: seq<Token>) {
    forall t | t in tokens :: ValidToken(t)
  }

  // ---------- the scan skips exactly the control tokens ----------

  lemma {:induction false} CsiEnds(s: string, i: nat, k: nat)
    requires i <= k < |s| && IsFinal(s[k]) && forall j | i <= j < k :: !IsFinal(s[j])
    ensures AfterCsi(s, i) == k + 1
    decreases k - i
  {
    if i < k { CsiEnds(s, i + 1, k); }
  }

  lemma {:induction false} CsiOpen(s: string, i: nat)
    requires forall j | i <= j < |s| :: !IsFinal(s[j])
    ensures AfterCsi(s, i) > |s|
    decreases |s| - i
  {
    if i < |s| { CsiOpen(s, i + 1); }
  }

  /** No terminator starts at `j`. */
  predicate NoStop(s: string, j: nat)
    requires j < |s|
  {
    s[j] != BEL && !(s[j] == ESC && j + 1 < |s| && s[j + 1] == '\\')
  }

  lemma {:induction false} OscEnds(s: string, i: nat, k: nat)
    requires i <= k < |s| && !NoStop(s, k) && forall j | i <= j < k :: NoStop(s, j)
    ensures AfterOsc(s, i) == if s[k] == BEL then k + 1 else k + 2
    decreases k - i
  {
    if i < k {
      assert NoStop(s, i);
      OscEnds(s, i + 1, k);
    }
  }

  lemma {:induction false} OscOpen(s: string, i: nat)
    requires forall j | i <= j < |s| :: NoStop(s, j)
    ensures AfterOsc(s, i) > |s|
    decreases |s| - i
  {
    if i < |s| {
      assert NoStop(s, i);
      OscOpen(s, i + 1);
    }
  }

  /** After a complete token, scanning goes on at its end. */
  lemma ScanToken(t: Token, s: string)
    requires ValidToken(t) && Render(t) <= s
    ensures Strip(s, 0) == PlainOf(t) + Strip(s, |Render(t)|)
  {
    var r := Render(t);
    assert forall i | 0 <= i < |r| :: s[i] == r[i];
    match t
    case Plain(c) =>
    case Short(c) =>
    case Csi(parameters, final) =>
      var k := |r| - 1;
      forall j | 2 <= j < k ensures !IsFinal(s[j]) { assert r[j] == parameters[j - 2]; }
      CsiEnds(s, 2, k);
    case Osc(text, bell) =>
      var k := |text| + 2;
      forall j | 2 <= j < k ensures NoStop(s, j) {
        assert r[j] == text[j - 2];
        if j + 1 < k { assert r[j + 1] == text[j - 1]; } else { assert s[j + 1] == BEL || s[j + 1] == ESC; }
      }
      OscEnds(s, 2, k);
  }

  /** `u` is what follows the first `k` characters of `s`. */
  ghost predicate Follows(s: string, u: string, k: nat) {
    |s| == k + |u| && forall i | 0 <= i < |u| :: u[i] == s[k + i]
  }

  lemma {:induction false} StripSuffix(s: string, u: string, k: nat, i: nat)
    requires Follows(s, u, k)
    ensures Strip(s, k + i) == Strip(u, i)
    decreases |u| - i
  {
    if i < |u| {
      if u[i] != ESC {
        StripSuffix(s, u, k, i + 1);
      } else {
        EscapeSuffix(s, u, k, i);
        StripSuffix(s, u, k, AfterEscape(u, i));
      }
    }
  }

  lemma EscapeSuffix(s: string, u: string, k: nat, i: nat)
    requires Follows(s, u, k) && i < |u| && u[i] == ESC
    ensures AfterEscape(s, k + i) == k + AfterEscape(u, i)
  {
    if i + 1 < |u| {
      CsiSuffix(s, u, k, i + 2);
      OscSuffix(s, u, k, i + 2);
    }
  }

  lemma {:induction false} CsiSuffix(s: string, u: string, k: nat, i: nat)
    requires Follows(s, u, k)
    ensures AfterCsi(s, k + i) == k + AfterCsi(u, i)
    decreases |u| - i
  {
    if i < |u| { CsiSuffix(s, u, k, i + 1); }
  }

  lemma {:induction false} OscSuffix(s: string, u: string, k: nat, i: nat)
    requires Follows(s, u, k)
    ensures AfterOsc(s, k + i) == k + AfterOsc(u, i)
    decreases |u| - i
  {
    if i < |u| { OscSuffix(s, u, k, i + 1); }
  }

  ghost function PlainOf(t: Token): string {
    if t.Plain? && t.c != '\r' then [t.c] else ""
  }

  lemma StripToken(t: Token, r: string, more: string)
    requires ValidToken(t) && r == Render(t)
    ensures Strip(r + more, 0) == PlainOf(t) + Strip(more, 0)
  {
    ScanToken(t, r + more);
    StripSuffix(r + more, more, |r|, 0);
  }

  /** Stripping distributes over concatenation at a token boundary, and turns tokens into their plain text. */
  lemma {:induction false} StripDistributes(tokens: seq<Token>, rest: string)
    requires AllValid(tokens)
    ensures Strip(RenderAll(tokens) + rest, 0) == PlainText(tokens) + Strip(rest, 0)
  {
    if tokens == [] {
      assert RenderAll(tokens) + rest == rest;
    } else {
      assert tokens[0] in tokens && forall t | t in tokens[1..] :: t in tokens;
      var r, others := Render(tokens[0]), RenderAll(tokens[1..]);
      ConcatAssociates(r, others, rest);
      StripToken(tokens[0], r, others + rest);
      StripDistributes(tokens[1..], rest);
      ConcatAssociates(PlainOf(tokens[0]), PlainText(tokens[1..]), Strip(rest, 0));
    }
  }

  lemma StripTail(t: Tail)
    requires ValidTail(t)
    ensures Strip(RenderTail(t), 0) == ""
  {
    var s := RenderTail(t);
    match t
    case NoTail =>
    case LoneEscape =>
    case OpenCsi(parameters) =>
      forall j | 2 <= j < |s| ensures !IsFinal(s[j]) { assert s[j] == parameters[j - 2]; }
      CsiOpen(s, 2);
    case OpenOsc(text) =>
      forall j | 2 <= j < |s| ensures NoStop(s, j) {
        assert s[j] == text[j - 2];
        if j + 1 < |s| { assert s[j + 1] == text[j - 1]; }
      }
      OscOpen(s, 2);
  }

  // ---------- every output is tokens and a tail ----------

  lemma {:induction false} FindFinal(s: string, i: nat) returns (k: nat)
    requires i <= |s|
    ensures i <= k <= |s| && (k < |s| ==> IsFinal(s[k])) && forall j | i <= j < k :: !IsFinal(s[j])
    decreases |s| - i
  {
    if i == |s| || IsFinal(s[i]) { k := i; } else { k := FindFinal(s, i + 1); }
  }

  lemma {:induction false} FindStop(s: string, i: nat) returns (k: nat)
    requires i <= |s|
    ensures i <= k <= |s| && (k < |s| ==> !NoStop(s, k)) && forall j | i <= j < k :: NoStop(s, j)
    decreases |s| - i
  {
    if i == |s| || !NoStop(s, i) { k := i; } else { k := FindStop(s, i + 1); }
  }

  lemma TextBefore(s: string, k: nat)
    requires 2 <= k <= |s| && forall j | 2 <= j < k :: NoStop(s, j)
    ensures NoTerminator(s[2..k])
  {
    var text := s[2..k];
    forall i | 0 <= i < |text| ensures text[i] != BEL { assert NoStop(s, i + 2); }
    forall i | 0 <= i < |text| - 1 ensures text[i] == ESC ==> text[i + 1] != '\\' { assert NoStop(s, i + 2); }
  }

  lemma FirstCsi(s: string) returns (token: Token, tail: Tail, complete: bool)
    requires |s| >= 2 && s[0] == ESC && s[1] == '['
    ensures complete ==> ValidToken(token) && Render(token) <= s
    ensures !complete ==> ValidTail(tail) && RenderTail(tail) == s
  {
    var k := FindFinal(s, 2);
    token, tail, complete := Short('c'), OpenCsi(s[2..k]), k < |s|;
    if complete {
      token := Csi(s[2..k], s[k]);
      assert Render(token) == s[..k + 1];
    } else {
      assert RenderTail(tail) == s;
    }
  }

  lemma FirstOsc(s: string) returns (token: Token, tail: Tail, complete: bool)
    requires |s| >= 2 && s[0] == ESC && s[1] == ']'
    ensures complete ==> ValidToken(token) && Render(token) <= s
    ensures !complete ==> ValidTail(tail) && RenderTail(tail) == s
  {
    var k := FindStop(s, 2);
    TextBefore(s, k);
    token, tail, complete := Short('c'), OpenOsc(s[2..k]), k < |s|;
    if complete {
      token := Osc(s[2..k], s[k] == BEL);
      if s[k] == BEL {
        assert Render(token) == s[..k + 1];
      } else {
        assert Render(token) == s[..k + 2];
      }
    } else {
      assert RenderTail(tail) == s;
    }
  }

  /** Splits off the first token, if the output starts with a complete one. */
  lemma FirstToken(s: string) returns (token: Token, tail: Tail, complete: bool)
    requires s != ""
    ensures complete ==> ValidToken(token) && Render(token) <= s
    ensures !complete ==> ValidTail(tail) && RenderTail(tail) == s
  {
    if s[0] != ESC {
      token, tail, complete := Plain(s[0]), NoTail, true;
    } else if |s| == 1 {
      token, tail, complete := Short('c'), LoneEscape, false;
    } else if s[1] == '[' {
      token, tail, complete := FirstCsi(s);
    } else if s[1] == ']' {
      token, tail, complete := FirstOsc(s);
    } else {
      token, tail, complete := Short(s[1]), NoTail, true;
      assert Render(token) == s[..2];
    }
  }

  lemma RenderCons(token: Token, more: seq<Token>, end: string)
    ensures RenderAll([token] + more) + end == Render(token) + (RenderAll(more) + end)
  {
    assert ([token] + more)[1..] == more;
    ConcatAssociates(Render(token), RenderAll(more), end);
  }

  lemma {:induction false} Tokenize(s: string) returns (tokens: seq<Token>, tail: Tail)
    ensures AllValid(tokens) && ValidTail(tail) && s == RenderAll(tokens) + RenderTail(tail)
    decreases |s|
  {
    if s == "" {
      tokens, tail := [], NoTail;
    } else {
      var token, open, complete := FirstToken(s);
      if complete {
        var n := |Render(token)|;
        var more, end := Tokenize(s[n..]);
        tokens, tail := [token] + more, end;
        RenderCons(token, more, RenderTail(end));
        assert s == Render(token) + s[n..];
      } else {
        tokens, tail := [], open;
      }
    }
  }

  /** Whatever the output, stripping yields the plain text of its tokens; only an incomplete sequence at the very
      end is dropped with them. */
  lemma StripIsPlainText(s: string)
    ensures exists tokens, tail ::
              && AllValid(tokens) && ValidTail(tail) && s == RenderAll(tokens) + RenderTail(tail)
              && Strip(s, 0) == PlainText(tokens)
  {
    var tokens, tail := Tokenize(s);
    StripDistributes(tokens, RenderTail(tail));
    StripTail(tail);
    assert PlainText(tokens) + "" == PlainText(tokens);
  }

  // ---------- clean and idempotent ----------

  ghost predicate Clean(s: string) {
    forall c | c in s :: c != '\U{001B}' && c != '\r'
  }

  lemma {:induction false} StripIsClean(s: string, i: nat)
    ensures Clean(Strip(s, i))
    decreases |s| - i
  {
    if i < |s| {
      if s[i] != ESC { StripIsClean(s, i + 1); } else { StripIsClean(s, AfterEscape(s, i)); }
    }
  }

  lemma {:induction false} CleanIsKept(s: string, i: nat)
    requires Clean(s) && i <= |s|
    ensures Strip(s, i) == s[i..]
    decreases |s| - i
  {
    if i < |s| {
      assert s[i] in s;
      CleanIsKept(s, i + 1);
      assert s[i..] == [s[i]] + s[i + 1..];
    }
  }

  lemma StripIsIdempotent(s: string)
    ensures Strip(Strip(s, 0), 0) == Strip(s, 0)
  {
    StripIsClean(s, 0);
    CleanIsKept(Strip(s, 0), 0);
  }
}
