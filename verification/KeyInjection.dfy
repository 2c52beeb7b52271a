/**
  Terminal input as `tmux send-keys` commands, and terminal content as a snapshot frame.
 */
module KeyInjection {
  import opened Base

  const CR: byte := 13
  const LF: byte := 10
  const TAB: byte := 9
  const ETX: byte := 3
  const ESC: byte := 27
  const SPACE: byte := 32
  const DEL: byte := 127

  /** A Go string made of the given bytes. */
  function Text(bs: seq<byte>): (s: string)
    ensures |s| == |bs|
    ensures forall i | 0 <= i < |s| :: s[i] == (bs[i] as int) as char
  {
    seq(|bs|, i requires 0 <= i < |bs| => (bs[i] as int) as char)
  }

  /** The bytes of a Go string; characters that are no bytes do not occur in one. */
  function Bytes(s: string): (bs: seq<byte>)
    ensures |bs| == |s|
  {
    seq(|s|, i requires 0 <= i < |s| => if (s[i] as int) < 256 then (s[i] as int) as byte else 0)
  }

  lemma BytesOfText(bs: seq<byte>)
    ensures Bytes(Text(bs)) == bs
  {
  }

  // ----- decoding the argument lists

  /** The bytes a key name stands for. */
  function KeyBytes(key: string): Option<seq<byte>> {
    if key == "Enter" then Some([CR])
    else if key == "Tab" then Some([TAB])
    else if key == "C-c" then Some([ETX])
    else if key == "Escape" then Some([ESC])
    else None
  }

  /** The bytes of the key names, by number: carriage return, tab, interrupt, escape. */
  lemma KeyNames()
    ensures KeyBytes("Enter") == Some([13]) && KeyBytes("Tab") == Some([9])
    ensures KeyBytes("C-c") == Some([3]) && KeyBytes("Escape") == Some([27])
  {
  }

  predicate IsLiteral(target: string, command: seq<string>) {
    |command| == 6 && command[..5] == ["send-keys", "-t", target, "-l", "--"] && IsPrintable(Bytes(command[5]))
      && Text(Bytes(command[5])) == command[5]
  }

  /** No control byte and no DEL. */
  predicate IsPrintable(bs: seq<byte>) {
    forall b | b in bs :: b >= 32 && b != 127
  }

  predicate IsKey(target: string, command: seq<string>) {
    |command| == 4 && command[..3] == ["send-keys", "-t", target] && KeyBytes(command[3]).Some?
  }

  predicate WellFormed(target: string, commands: seq<seq<string>>) {
    forall c | c in commands :: IsLiteral(target, c) || IsKey(target, c)
  }

  function Typed(target: string, command: seq<string>): seq<byte>
    requires IsLiteral(target, command) || IsKey(target, command)
  {
    if IsLiteral(target, command) then Bytes(command[5]) else KeyBytes(command[3]).value
  }

  /** The byte stream a list of commands stands for, argument by argument. */
  function Stream(target: string, commands: seq<seq<string>>): seq<byte>
    requires WellFormed(target, commands)
  {
    if commands == [] then [] else Stream(target, commands[..|commands| - 1]) + Typed(target, commands[|commands| - 1])
  }

  /** No literal is empty and no two literals stand side by side. */
  predicate Compact(target: string, commands: seq<seq<string>>) {
    && (forall i | 0 <= i < |commands| && IsLiteral(target, commands[i]) :: commands[i][5] != "")
    && (forall i | 0 < i < |commands| :: !(IsLiteral(target, commands[i - 1]) && IsLiteral(target, commands[i])))
  }

  // ----- what is meant to arrive

  /** One payload byte: line ends become carriage returns, unmapped control bytes and DEL are dropped. */
  function Meant(b: byte): seq<byte> {
    if b == LF then [CR]
    else if b in [CR, TAB, ETX, ESC] then [b]
    else if b < SPACE || b == DEL then []
    else [b]
  }

  function Delivered(payload: seq<byte>): seq<byte> {
    if payload == [] then [] else Delivered(payload[..|payload| - 1]) + Meant(payload[|payload| - 1])
  }

  /** The commands put out so far, their stream, and whether the last of them is a literal. */
  class Output {
    const target: string
    var args: seq<seq<string>>
    var literal: seq<byte>

    constructor (target: string)
      ensures this.target == target && args == [] && literal == []
    {
      this.target := target;
      args, literal := [], [];
    }

    ghost predicate Valid()
      reads this
    {
      && WellFormed(target, args) && Compact(target, args) && IsPrintable(literal)
      && (args != [] ==> !IsLiteral(target, args[|args| - 1]))
    }

    /** What arrives once the pending literal is flushed. */
    ghost function Pending(): seq<byte>
      requires Valid()
      reads this
    {
      Stream(target, args) + literal
    }

    method FlushLiteral()
      requires Valid()
      modifies this
      ensures WellFormed(target, args) && Compact(target, args) && literal == []
      ensures Stream(target, args) == old(Pending())
    {
      if |literal| == 0 {
        assert Stream(target, args) + literal == Stream(target, args);
        return;
      }
      var command := ["send-keys", "-t", target, "-l", "--", Text(literal)];
      assert command[..5] == ["send-keys", "-t", target, "-l", "--"];
      BytesOfText(literal);
      ghost var before := args;
      args := args + [command];
      assert args[..|args| - 1] == before;
      assert Typed(target, command) == literal;
      literal := [];
    }

    method AppendKey(key: string)
      requires Valid() && KeyBytes(key).Some?
      modifies this
      ensures Valid() && Pending() == old(Pending()) + KeyBytes(key).value
    {
      FlushLiteral();
      var command := ["send-keys", "-t", target, key];
      assert command[..3] == ["send-keys", "-t", target] && |command| == 4;
      ghost var before := args;
      args := args + [command];
      assert args[..|args| - 1] == before;
      assert Stream(target, args) + literal == Stream(target, args);
    }

    /** One byte of the payload. */
    method Accept(b: byte)
      requires Valid()
      modifies this
      ensures Valid() && Pending() == old(Pending()) + Meant(b)
    {
      if b == CR || b == LF {
        AppendKey("Enter");
      } else if b == TAB {
        AppendKey("Tab");
      } else if b == ETX {
        AppendKey("C-c");
      } else if b == ESC {
        AppendKey("Escape");
      } else if b >= SPACE && b != DEL {
        literal := literal + [b];
      }
    }
  }

  /** The argument lists decode to exactly the payload, up to the line ends and control bytes described by `Meant`,
      in order, and without a needless command. What tmux itself makes of an argument is not part of this model. */
  method InputArgs(sessionName: string, payload: seq<byte>) returns (args: seq<seq<string>>)
    ensures var target := sessionName + ":main.0";
            WellFormed(target, args) && Compact(target, args) && Stream(target, args) == Delivered(payload)
  {
    var out := new Output(sessionName + ":main.0");
    var i := 0;
    while i < |payload|
      invariant 0 <= i <= |payload| && fresh(out) && out.target == sessionName + ":main.0"
      invariant out.Valid() && out.Pending() == Delivered(payload[..i])
    {
      assert payload[..i + 1][..i] == payload[..i];
      out.Accept(payload[i]);
      i := i + 1;
    }
    assert payload[..|payload|] == payload;
    out.FlushLiteral();
    args := out.args;
  }

  /** There is only one way to write a stream: well-formed, compact argument lists that decode to the same bytes are
      the same, command by command. */
  lemma {:induction false} OnlyOneWayToWrite(target: string, a: seq<seq<string>>, b: seq<seq<string>>)
    requires WellFormed(target, a) && Compact(target, a) && WellFormed(target, b) && Compact(target, b)
    requires Stream(target, a) == Stream(target, b)
    ensures a == b
    decreases |a|
  {
    if a == [] {
      StreamIsEmptyTogether(target, b);
    } else if b == [] {
      StreamIsEmptyTogether(target, a);
    } else {
      SameLastCommand(target, a, b);
      var m, n := |a| - 1, |b| - 1;
      InitIsFine(target, a);
      InitIsFine(target, b);
      assert Stream(target, a[..m]) == Stream(target, b[..n]) by {
        var last := Typed(target, a[m]);
        assert Stream(target, a) == Stream(target, a[..m]) + last && Stream(target, b) == Stream(target, b[..n]) + last;
        assert Stream(target, a[..m]) == Stream(target, a)[..|Stream(target, a)| - |last|];
        assert Stream(target, b[..n]) == Stream(target, b)[..|Stream(target, b)| - |last|];
      }
      OnlyOneWayToWrite(target, a[..m], b[..n]);
      assert a == a[..m] + [a[m]] && b == b[..n] + [b[n]];
    }
  }

  lemma InitIsFine(target: string, a: seq<seq<string>>)
    requires a != [] && WellFormed(target, a) && Compact(target, a)
    ensures WellFormed(target, a[..|a| - 1]) && Compact(target, a[..|a| - 1])
  {
  }

  lemma CommandsTypeSomething(target: string, a: seq<seq<string>>)
    requires a != [] && WellFormed(target, a) && Compact(target, a)
    ensures Typed(target, a[|a| - 1]) != [] && Stream(target, a) != []
  {
    assert a[|a| - 1] in a;
  }

  lemma StreamIsEmptyTogether(target: string, a: seq<seq<string>>)
    requires WellFormed(target, a) && Compact(target, a) && Stream(target, a) == []
    ensures a == []
  {
    if a != [] {
      CommandsTypeSomething(target, a);
    }
  }

  /** A stream that does not end in a literal ends in a control byte, or is empty. */
  lemma EndsInControl(target: string, a: seq<seq<string>>)
    requires WellFormed(target, a) && Compact(target, a)
    requires a != [] ==> !IsLiteral(target, a[|a| - 1])
    ensures var s := Stream(target, a); s != [] ==> s[|s| - 1] < 32
  {
    if a != [] {
      assert a[|a| - 1] in a;
    }
  }

  /** The longest end of a stream without control bytes. */
  function PrintableEnd(s: seq<byte>): seq<byte> {
    if s == [] then []
    else
      var n := |s| - 1;
      if s[n] >= 32 && s[n] != 127 then PrintableEnd(s[..n]) + [s[n]] else []
  }

  lemma {:induction false} PrintableEndIsTheLast(x: seq<byte>, u: seq<byte>)
    requires IsPrintable(u) && (x != [] ==> x[|x| - 1] < 32)
    ensures PrintableEnd(x + u) == u
    decreases |u|
  {
    if u == [] {
      assert x + u == x;
    } else {
      var n := |u| - 1;
      assert u[n] in u && (x + u)[..|x + u| - 1] == x + u[..n] && u == u[..n] + [u[n]];
      forall b | b in u[..n]
        ensures b >= 32 && b != 127
      {
        assert b in u;
      }
      PrintableEndIsTheLast(x, u[..n]);
    }
  }

  lemma SameLastLiteral(target: string, a: seq<seq<string>>, b: seq<seq<string>>)
    requires a != [] && b != []
    requires WellFormed(target, a) && Compact(target, a) && WellFormed(target, b) && Compact(target, b)
    requires Stream(target, a) == Stream(target, b)
    requires IsLiteral(target, a[|a| - 1]) && IsLiteral(target, b[|b| - 1])
    ensures a[|a| - 1] == b[|b| - 1]
  {
    LiteralIsPrintableEnd(target, a);
    LiteralIsPrintableEnd(target, b);
    SameLiteral(target, a[|a| - 1], b[|b| - 1]);
  }

  lemma LiteralIsPrintableEnd(target: string, a: seq<seq<string>>)
    requires a != [] && WellFormed(target, a) && Compact(target, a) && IsLiteral(target, a[|a| - 1])
    ensures Typed(target, a[|a| - 1]) == PrintableEnd(Stream(target, a))
  {
    InitIsFine(target, a);
    EndsInControl(target, a[..|a| - 1]);
    PrintableEndIsTheLast(Stream(target, a[..|a| - 1]), Typed(target, a[|a| - 1]));
  }

  lemma SameLastKey(target: string, a: seq<seq<string>>, b: seq<seq<string>>)
    requires a != [] && b != [] && WellFormed(target, a) && WellFormed(target, b)
    requires Stream(target, a) == Stream(target, b)
    requires IsKey(target, a[|a| - 1]) && IsKey(target, b[|b| - 1])
    ensures a[|a| - 1] == b[|b| - 1]
  {
    KeyIsLastByte(target, a);
    KeyIsLastByte(target, b);
    SameKey(target, a[|a| - 1], b[|b| - 1]);
  }

  lemma KeyIsLastByte(target: string, a: seq<seq<string>>)
    requires a != [] && WellFormed(target, a) && IsKey(target, a[|a| - 1])
    ensures var s := Stream(target, a); s != [] && Typed(target, a[|a| - 1]) == [s[|s| - 1]]
  {
  }

  lemma SameLastCommand(target: string, a: seq<seq<string>>, b: seq<seq<string>>)
    requires a != [] && b != []
    requires WellFormed(target, a) && Compact(target, a) && WellFormed(target, b) && Compact(target, b)
    requires Stream(target, a) == Stream(target, b)
    ensures a[|a| - 1] == b[|b| - 1]
  {
    LastByte(target, a);
    LastByte(target, b);
    assert a[|a| - 1] in a && b[|b| - 1] in b;
    if IsLiteral(target, a[|a| - 1]) {
      SameLastLiteral(target, a, b);
    } else {
      SameLastKey(target, a, b);
    }
  }

  /** The last byte of the stream is that of the last command: printable for a literal, a control byte for a key. */
  lemma LastByte(target: string, a: seq<seq<string>>)
    requires a != [] && WellFormed(target, a) && Compact(target, a)
    ensures var s, typed := Stream(target, a), Typed(target, a[|a| - 1]);
            && s != [] && typed != [] && s[|s| - 1] == typed[|typed| - 1]
            && (IsLiteral(target, a[|a| - 1]) <==> s[|s| - 1] >= 32)
  {
    CommandsTypeSomething(target, a);
    var c := a[|a| - 1];
    assert c in a;
    var typed := Typed(target, c);
    assert typed[|typed| - 1] in typed;
  }

  lemma SameLiteral(target: string, c: seq<string>, d: seq<string>)
    requires IsLiteral(target, c) && IsLiteral(target, d) && Typed(target, c) == Typed(target, d)
    ensures c == d
  {
    assert c == c[..5] + [c[5]] && d == d[..5] + [d[5]];
  }

  lemma SameKey(target: string, c: seq<string>, d: seq<string>)
    requires IsKey(target, c) && IsKey(target, d) && Typed(target, c) == Typed(target, d)
    ensures c == d
  {
    assert c == c[..3] + [c[3]] && d == d[..3] + [d[3]];
  }

  /** What each byte is meant to become, by its number. */
  lemma MeantByNumber(b: byte)
    ensures b == 10 || b == 13 ==> Meant(b) == [13]
    ensures b == 9 || b == 3 || b == 27 || (b >= 32 && b != 127) ==> Meant(b) == [b]
    ensures b == 127 || (b < 32 && b !in [3, 9, 10, 13, 27]) ==> Meant(b) == []
    ensures Delivered([b]) == Meant(b)
  {
    assert [b][..0] == [];
  }

  function Ls(target: string): seq<seq<string>> {
    [["send-keys", "-t", target, "-l", "--", "ls"], ["send-keys", "-t", target, "Enter"]]
  }

  lemma LsDecodes(target: string)
    ensures WellFormed(target, Ls(target)) && Compact(target, Ls(target))
    ensures Stream(target, Ls(target)) == [108, 115, 13]
  {
    var first, second := Ls(target)[0], Ls(target)[1];
    assert first[..5] == ["send-keys", "-t", target, "-l", "--"] && second[..3] == ["send-keys", "-t", target];
    assert Bytes("ls") == [108, 115] && Text([108, 115]) == "ls";
    var none: seq<seq<string>> := [];
    assert Ls(target)[..1] == [first] && [first][..0] == none;
    assert Stream(target, [first]) == Stream(target, none) + [108, 115];
  }

  lemma LettersAreDelivered(a: byte, b: byte)
    requires a >= 32 && a != 127 && b >= 32 && b != 127
    ensures Delivered([a, b]) == [a, b]
  {
    DeliveryOfPieces([a], [b]);
    assert [a] + [b] == [a, b];
    MeantByNumber(a);
    MeantByNumber(b);
  }

  lemma LsIsDelivered()
    ensures Delivered([108, 115, 10]) == [108, 115, 13]
  {
    DeliveryOfPieces([108, 115], [10]);
    assert [108, 115] + [10] == [108, 115, 10];
    LettersAreDelivered(108, 115);
    MeantByNumber(10);
  }

  /** The line "ls" and its end, as commands. */
  method TypeLs() returns (args: seq<seq<string>>)
    ensures args == [["send-keys", "-t", "s:main.0", "-l", "--", "ls"], ["send-keys", "-t", "s:main.0", "Enter"]]
  {
    args := InputArgs("s", [108, 115, 10]);
    assert "s" + ":main.0" == "s:main.0";
    LsIsDelivered();
    LsDecodes("s:main.0");
    OnlyOneWayToWrite("s:main.0", args, Ls("s:main.0"));
  }

  /** What is delivered never depends on how the payload is cut into frames. */
  lemma {:induction false} DeliveryOfPieces(a: seq<byte>, b: seq<byte>)
    ensures Delivered(a + b) == Delivered(a) + Delivered(b)
    decreases |b|
  {
    if b == [] {
      assert a + b == a;
    } else {
      var init := b[..|b| - 1];
      assert (a + b)[..|a + b| - 1] == a + init;
      DeliveryOfPieces(a, init);
    }
  }

  /** Delivered input, sent again, is delivered unchanged. */
  lemma {:induction false} DeliveryIsStable(payload: seq<byte>)
    ensures Delivered(Delivered(payload)) == Delivered(payload)
    decreases |payload|
  {
    if payload != [] {
      var init, last := payload[..|payload| - 1], payload[|payload| - 1];
      DeliveryIsStable(init);
      DeliveryOfPieces(Delivered(init), Meant(last));
      if Meant(last) != [] {
        assert Meant(last)[..0] == [];
        assert Delivered(Meant(last)) == [] + Meant(Meant(last)[0]);
      }
    }
  }

  // ----- snapshots

  /** Replacing CR LF by LF, left to right. */
  function Collapse(raw: seq<byte>): seq<byte>
    decreases |raw|
  {
    if raw == [] then []
    else if |raw| >= 2 && raw[0] == CR && raw[1] == LF then [LF] + Collapse(raw[2..])
    else [raw[0]] + Collapse(raw[1..])
  }

  /** Replacing LF by CR LF. */
  function Expand(raw: seq<byte>): seq<byte> {
    if raw == [] then [] else (if raw[0] == LF then [CR, LF] else [raw[0]]) + Expand(raw[1..])
  }

  const RESET: seq<byte> := [27, 91, 51, 74, 27, 91, 50, 74, 27, 91, 72] // ESC [3J  ESC [2J  ESC [H

  function NormalizeSnapshot(raw: seq<byte>): (frame: seq<byte>)
    ensures |frame| >= |RESET| && frame[..|RESET|] == RESET
  {
    RESET + Expand(Collapse(raw))
  }

  /** Collapsing goes from one CR LF to the next, and leaves everything else as it is. */
  lemma {:induction false} CollapseOfPieces(a: seq<byte>, b: seq<byte>)
    ensures Collapse(a + [CR, LF] + b) == Collapse(a) + [LF] + Collapse(b)
    decreases |a|
  {
    var whole := a + [CR, LF] + b;
    if a == [] {
      assert whole[2..] == b;
    } else if |a| >= 2 && a[0] == CR && a[1] == LF {
      assert whole[2..] == a[2..] + [CR, LF] + b;
      CollapseOfPieces(a[2..], b);
    } else {
      assert whole[1..] == a[1..] + [CR, LF] + b;
      CollapseOfPieces(a[1..], b);
    }
  }

  /** Content without a CR LF is left alone, whatever line feeds and carriage returns stand in it. */
  lemma {:induction false} NothingToCollapse(raw: seq<byte>)
    requires forall i | 0 < i < |raw| :: !(raw[i - 1] == CR && raw[i] == LF)
    ensures Collapse(raw) == raw
    decreases |raw|
  {
    if raw != [] {
      assert |raw| >= 2 ==> !(raw[1 - 1] == CR && raw[1] == LF);
      forall i | 0 < i < |raw[1..]|
        ensures !(raw[1..][i - 1] == CR && raw[1..][i] == LF)
      {
        assert raw[1..][i - 1] == raw[i + 1 - 1] && raw[1..][i] == raw[i + 1];
      }
      NothingToCollapse(raw[1..]);
    }
  }

  /** Expanding goes byte by byte. */
  lemma {:induction false} ExpandOfPieces(a: seq<byte>, b: seq<byte>)
    ensures Expand(a + b) == Expand(a) + Expand(b)
  {
    if a == [] {
      assert a + b == b;
    } else {
      assert (a + b)[1..] == a[1..] + b;
      ExpandOfPieces(a[1..], b);
    }
  }

  lemma OneByteExpands(c: byte)
    ensures Expand([c]) == if c == 10 then [13, 10] else [c]
  {
    assert [c][1..] == [];
  }

  /** A bare and a full line end come out alike, behind the sequences that clear the screen. */
  lemma SnapshotWrittenOut()
    ensures NormalizeSnapshot([97, 10, 98, 13, 10])
            == [27, 91, 51, 74, 27, 91, 50, 74, 27, 91, 72] + [97, 13, 10, 98, 13, 10]
  {
    NothingToCollapse([97, 10, 98]);
    CollapseOfPieces([97, 10, 98], []);
    assert [97, 10, 98] + [CR, LF] + [] == [97, 10, 98, 13, 10];
    assert Collapse([97, 10, 98, 13, 10]) == [97, 10, 98, 10];
    ExpandOfPieces([97, 10], [98, 10]);
    ExpandOfPieces([97], [10]);
    ExpandOfPieces([98], [10]);
    OneByteExpands(97);
    OneByteExpands(10);
    OneByteExpands(98);
    assert [97, 10] + [98, 10] == [97, 10, 98, 10] && [97] + [10] == [97, 10] && [98] + [10] == [98, 10];
  }

  /** Every line feed follows a carriage return. */
  predicate EveryLineReturns(body: seq<byte>) {
    forall i | 0 <= i < |body| && body[i] == LF :: i > 0 && body[i - 1] == CR
  }

  lemma {:induction false} ExpandReturnsEveryLine(raw: seq<byte>)
    ensures EveryLineReturns(Expand(raw))
  {
    if raw != [] {
      ExpandReturnsEveryLine(raw[1..]);
      var head, tail := if raw[0] == LF then [CR, LF] else [raw[0]], Expand(raw[1..]);
      forall i | 0 <= i < |Expand(raw)| && Expand(raw)[i] == LF
        ensures i > 0 && Expand(raw)[i - 1] == CR
      {
        if i >= |head| {
          assert tail[i - |head|] == LF;
        }
      }
    }
  }

  /** Collapsing undoes expanding, whatever carriage returns the content holds. */
  lemma {:induction false} CollapseUndoesExpand(body: seq<byte>)
    ensures Collapse(Expand(body)) == body
  {
    if body != [] {
      var tail := Expand(body[1..]);
      CollapseUndoesExpand(body[1..]);
      if body[0] == LF {
        assert Expand(body) == [CR, LF] + tail;
        assert ([CR, LF] + tail)[2..] == tail;
      } else {
        assert Expand(body) == [body[0]] + tail;
        assert ([body[0]] + tail)[1..] == tail;
        if body[0] == CR && tail != [] {
          assert tail[0] != LF by { ExpandReturnsEveryLine(body[1..]); }
        }
      }
    }
  }

  /** A snapshot's lines all return the cursor, and normalizing content that is already in this form, in
      particular a snapshot's own content, adds nothing to it. */
  lemma SnapshotLinesReturn(raw: seq<byte>)
    ensures EveryLineReturns(NormalizeSnapshot(raw)[|RESET|..])
    ensures NormalizeSnapshot(NormalizeSnapshot(raw)[|RESET|..]) == NormalizeSnapshot(raw)
  {
    var body := Expand(Collapse(raw));
    assert NormalizeSnapshot(raw)[|RESET|..] == body;
    ExpandReturnsEveryLine(Collapse(raw));
    CollapseUndoesExpand(Collapse(raw));
  }
}
