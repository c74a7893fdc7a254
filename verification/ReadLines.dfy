/** read-lines.c: cutting a stream of bytes that arrives in pieces into lines, in a buffer of fixed size. */
module ReadLines {
  const NEWLINE := '\n'

  datatype Result = Ok | End | Error | Overflow

  // What read() returns: an error, or some bytes, none at the end of the stream.
  datatype Input = Failed | Bytes(data: string)

  // The complete lines of a text, without their newlines, and what follows the last newline.
  datatype Cut = Cut(lines: seq<string>, rest: string)

  // The lines of `line + s`, where `line` has no newline.
  function CutFrom(line: string, s: string): Cut
    decreases |s|
  {
    if s == [] then Cut([], line)
    else if s[0] == NEWLINE then Before([line], CutFrom([], s[1..]))
    else CutFrom(line + [s[0]], s[1..])
  }

  function Before(lines: seq<string>, c: Cut): Cut {
    Cut(lines + c.lines, c.rest)
  }

  function CutLines(s: string): Cut {
    CutFrom([], s)
  }

  lemma BeforeTwice(lines: seq<string>, line: string, c: Cut)
    ensures Before(lines, Before([line], c)) == Before(lines + [line], c)
  {
  }

  // What one call makes of the `retained` bytes and a new piece: only as many bytes as were just read are searched,
  // counting from the start of the buffer.
  function Frame(retained: string, piece: string): Cut {
    var data := retained + piece;
    var c := CutLines(data[..|piece|]);
    Cut(c.lines, c.rest + data[|piece|..])
  }

  // What one call returns, hands over and keeps, in a buffer of `size` bytes that holds `retained`: when it is full
  // after the search all of it is discarded.
  datatype Called = Called(result: Result, lines: seq<string>, retained: string)

  function Call(size: nat, retained: string, piece: string): Called {
    var c := Frame(retained, piece);
    if |c.rest| == size then Called(Overflow, c.lines, "") else Called(Ok, c.lines, c.rest)
  }

  // The buffer is full, and no message ends among the bytes that are searched.
  predicate Overflows(size: nat, retained: string, piece: string) {
    |retained + piece| == size && NEWLINE !in (retained + piece)[..|piece|]
  }

  class LineBuffer {
    const buffer: array<char>
    var index: nat

    ghost predicate Valid()
      reads this
    {
      index < buffer.Length
    }

    ghost function Retained(): string
      requires Valid()
      reads this, buffer
    {
      buffer[..index]
    }

    constructor (size: nat)
      requires size > 0
      ensures Valid() && fresh(buffer) && buffer.Length == size && Retained() == ""
    {
      buffer := new char[size](_ => '\0');
      index := 0;
    }

    // The search for newlines among the first `len` bytes of the `total` bytes in the buffer, which are `data`.
    method Search(len: nat, total: nat, ghost data: string) returns (lines: seq<string>, messageStart: nat)
      requires len <= total <= buffer.Length && buffer[..total] == data
      modifies buffer
      ensures messageStart <= len && CutLines(data[..len]) == Cut(lines, data[messageStart..len])
      ensures buffer[messageStart..total] == data[messageStart..]
    {
      lines, messageStart := [], 0;
      ghost var text := data[..len];
      assert text[0..] == text;
      for i := 0 to len
        invariant 0 <= messageStart <= i
        invariant forall k :: messageStart <= k < total ==> buffer[k] == data[k]
        invariant CutLines(text) == Before(lines, CutFrom(text[messageStart..i], text[i..]))
      {
        assert text[i..][0] == buffer[i] && text[i..][1..] == text[i + 1..];
        if buffer[i] == NEWLINE {
          BeforeTwice(lines, text[messageStart..i], CutFrom([], text[i + 1..]));
          assert text[i + 1..i + 1] == [];
          buffer[i] := '\0';
          assert forall k :: messageStart <= k < i ==> buffer[k] == text[k];
          assert buffer[messageStart..i] == text[messageStart..i];
          lines := lines + [buffer[messageStart..i]];
          messageStart := i + 1;
        } else {
          assert text[messageStart..i] + [text[i]] == text[messageStart..i + 1];
        }
      }
      assert lines + [] == lines;
      assert text[messageStart..] == data[messageStart..len];
      assert |buffer[messageStart..total]| == |data[messageStart..]|;
    }

    // What read() does to the buffer.
    method Append(data: string)
      requires Valid() && |data| <= buffer.Length - index
      modifies buffer
      ensures buffer[..index + |data|] == old(buffer[..index]) + data
    {
      forall k | 0 <= k < |data| {
        buffer[index + k] := data[k];
      }
    }

    // The incomplete message moves to the beginning of the buffer.
    method MoveToFront(start: nat, count: nat)
      requires start + count <= buffer.Length
      modifies buffer
      ensures buffer[..count] == old(buffer[start..start + count])
    {
      forall k | 0 <= k < count {
        buffer[k] := buffer[start + k];
      }
    }

    // read_lines; `lines` are the strings the handler was called with, in order.
    method Read(input: Input) returns (result: Result, lines: seq<string>)
      requires Valid() && (input.Bytes? ==> |input.data| <= buffer.Length - index)
      modifies this, buffer
      ensures Valid()
      ensures input.Failed? ==> result == Error && lines == [] && Retained() == old(Retained())
      ensures input == Bytes("") ==> result == End && lines == [] && Retained() == ""
      ensures input.Bytes? && input.data != "" ==>
                result == if Overflows(buffer.Length, old(Retained()), input.data) then Overflow else Ok
      ensures input.Bytes? && input.data != "" ==>
                Called(result, lines, Retained()) == Call(buffer.Length, old(Retained()), input.data)
    {
      lines := [];
      if input.Failed? {
        return Error, [];
      }
      if |input.data| == 0 {
        index := 0;
        return End, [];
      }
      ghost var retained := Retained();
      ResultExactlyWhen(buffer.Length, retained, input.data);
      Append(input.data);
      result, lines := HandleBytes(|input.data|, retained, input.data);
    }

    // The rest of read_lines, once `len` bytes have been read into the buffer.
    method HandleBytes(len: nat, ghost retained: string, ghost piece: string)
      returns (result: Result, lines: seq<string>)
      requires Valid() && index + len <= buffer.Length && len == |piece|
      requires buffer[..index + len] == retained + piece
      modifies this, buffer
      ensures Valid()
      ensures Called(result, lines, Retained()) == Call(buffer.Length, retained, piece)
    {
      var messageStart;
      lines, messageStart := Search(len, index + len, retained + piece);
      FrameFrom(retained, piece, lines, messageStart);
      var remainder := index + len - messageStart;
      if remainder == buffer.Length {
        index := 0;
        result := Overflow;
      } else {
        MoveToFront(messageStart, remainder);
        index := remainder;
        result := Ok;
      }
    }
  }

  lemma FrameFrom(retained: string, piece: string, lines: seq<string>, start: nat)
    requires start <= |piece|
    requires CutLines((retained + piece)[..|piece|]) == Cut(lines, (retained + piece)[start..|piece|])
    ensures Frame(retained, piece) == Cut(lines, (retained + piece)[start..])
  {
  }

  // The text that lines stand for.
  function Joined(lines: seq<string>): string {
    if lines == [] then "" else lines[0] + [NEWLINE] + Joined(lines[1..])
  }

  ghost predicate Clean(lines: seq<string>) {
    forall i :: 0 <= i < |lines| ==> NEWLINE !in lines[i]
  }

  lemma JoinedBefore(line: string, lines: seq<string>)
    ensures Joined([line] + lines) == line + [NEWLINE] + Joined(lines)
  {
  }

  lemma {:induction false} CutIsExact(line: string, s: string)
    requires NEWLINE !in line
    ensures var c := CutFrom(line, s);
            Joined(c.lines) + c.rest == line + s && Clean(c.lines) && NEWLINE !in c.rest
    decreases |s|
  {
    if s != [] {
      var c := CutFrom([], s[1..]);
      if s[0] == NEWLINE {
        CutIsExact([], s[1..]);
        JoinedBefore(line, c.lines);
        assert line + [NEWLINE] + (Joined(c.lines) + c.rest) == line + s;
      } else {
        CutIsExact(line + [s[0]], s[1..]);
        assert line + [s[0]] + s[1..] == line + s;
      }
    }
  }

  // What one call hands over, with newlines, and what is left then are exactly the bytes there were.
  lemma FrameIsExact(retained: string, piece: string)
    ensures var c := Frame(retained, piece);
            Joined(c.lines) + c.rest == retained + piece && Clean(c.lines)
  {
    var data := retained + piece;
    var c := CutLines(data[..|piece|]);
    CutIsExact([], data[..|piece|]);
    assert Joined(c.lines) + (c.rest + data[|piece|..]) == ([] + data[..|piece|]) + data[|piece|..] == data;
  }

  // What became of a part of the stream: a line that was handed over, or bytes discarded by an overflow.
  datatype Item = Line(text: string) | Discarded(bytes: string)

  function Lines(lines: seq<string>): seq<Item> {
    seq(|lines|, i requires 0 <= i < |lines| => Line(lines[i]))
  }

  datatype Log = Log(items: seq<Item>, rest: string)

  // All calls on a stream that arrives in `pieces`, and the bytes still in the buffer.
  function CallAll(size: nat, pieces: seq<string>): Log {
    if pieces == [] then Log([], "")
    else
      var before := CallAll(size, pieces[..|pieces| - 1]);
      var piece := pieces[|pieces| - 1];
      var c := Call(size, before.rest, piece);
      var discarded := if c.result == Overflow then [Discarded(Frame(before.rest, piece).rest)] else [];
      Log(before.items + Lines(c.lines) + discarded, c.retained)
  }

  function BytesOf(item: Item): string {
    match item
    case Line(text) => text + [NEWLINE]
    case Discarded(bytes) => bytes
  }

  function Text(items: seq<Item>): string {
    if items == [] then "" else Text(items[..|items| - 1]) + BytesOf(items[|items| - 1])
  }

  lemma TextOfOneMore(items: seq<Item>, item: Item)
    ensures Text(items + [item]) == Text(items) + BytesOf(item)
  {
    assert (items + [item])[..|items|] == items;
  }

  lemma FirstLine(items: seq<Item>, lines: seq<string>)
    requires lines != []
    ensures items + Lines(lines) == items + [Line(lines[0])] + Lines(lines[1..])
  {
  }

  lemma Associative(a: string, b: string, c: string)
    ensures (a + b) + c == a + (b + c)
  {
  }

  lemma {:induction false} TextOfLines(items: seq<Item>, lines: seq<string>)
    ensures Text(items + Lines(lines)) == Text(items) + Joined(lines)
    decreases |lines|
  {
    if lines == [] {
      assert items + Lines(lines) == items;
    } else {
      var first := Line(lines[0]);
      FirstLine(items, lines);
      TextOfLines(items + [first], lines[1..]);
      TextOfOneMore(items, first);
      Associative(Text(items), BytesOf(first), Joined(lines[1..]));
    }
  }

  function Stream(pieces: seq<string>): string {
    if pieces == [] then "" else Stream(pieces[..|pieces| - 1]) + pieces[|pieces| - 1]
  }

  lemma TextOfCall(items: seq<Item>, size: nat, retained: string, piece: string)
    ensures var c := Call(size, retained, piece);
            var discarded := if c.result == Overflow then [Discarded(Frame(retained, piece).rest)] else [];
            Text(items + Lines(c.lines) + discarded) + c.retained == Text(items) + retained + piece
  {
    var c := Frame(retained, piece);
    FrameIsExact(retained, piece);
    TextOfLines(items, c.lines);
    TextOfOneMore(items + Lines(c.lines), Discarded(c.rest));
    Regroup(Text(items), retained, piece, Joined(c.lines), c.rest);
    assert items + Lines(c.lines) + [] == items + Lines(c.lines);
  }

  // However the stream is cut into pieces, every byte of it is accounted for, in order: handed over in a line, ended
  // by a newline, discarded by an overflow, or still in the buffer.
  lemma {:induction false} EveryByteAccountedFor(size: nat, pieces: seq<string>)
    ensures var log := CallAll(size, pieces); Text(log.items) + log.rest == Stream(pieces)
  {
    if pieces != [] {
      var before := CallAll(size, pieces[..|pieces| - 1]);
      EveryByteAccountedFor(size, pieces[..|pieces| - 1]);
      TextOfCall(before.items, size, before.rest, pieces[|pieces| - 1]);
    }
  }

  lemma {:induction false} NoNewlineInLines(size: nat, pieces: seq<string>)
    ensures forall i :: i in CallAll(size, pieces).items && i.Line? ==> NEWLINE !in i.text
  {
    if pieces != [] {
      NoNewlineInLines(size, pieces[..|pieces| - 1]);
      FrameIsExact(CallAll(size, pieces[..|pieces| - 1]).rest, pieces[|pieces| - 1]);
    }
  }

  lemma Regroup(a: string, b: string, p: string, c: string, d: string)
    requires c + d == b + p
    ensures (a + c) + d == (a + b) + p
  {
    assert (a + c) + d == a + (c + d) && (a + b) + p == a + (b + p);
  }

  lemma {:induction false} CutFirstLine(line: string, l: string, t: string)
    requires NEWLINE !in l
    ensures CutFrom(line, l + [NEWLINE] + t) == Before([line + l], CutLines(t))
    decreases |l|
  {
    var text := l + [NEWLINE] + t;
    if l == [] {
      assert text[1..] == t && line + l == line;
    } else {
      assert text[1..] == l[1..] + [NEWLINE] + t && line + [l[0]] + l[1..] == line + l;
      CutFirstLine(line + [l[0]], l[1..], t);
    }
  }

  lemma {:induction false} CutJoined(lines: seq<string>, rest: string)
    requires Clean(lines)
    ensures CutLines(Joined(lines) + rest) == Before(lines, CutLines(rest))
  {
    if lines == [] {
      assert Joined(lines) + rest == rest && lines + CutLines(rest).lines == CutLines(rest).lines;
    } else {
      CutJoined(lines[1..], rest);
      CutFirstLine([], lines[0], Joined(lines[1..]) + rest);
      assert Joined(lines) + rest == lines[0] + [NEWLINE] + (Joined(lines[1..]) + rest);
      assert [] + lines[0] == lines[0];
      assert [lines[0]] + (lines[1..] + CutLines(rest).lines) == lines + CutLines(rest).lines;
    }
  }

  lemma {:induction false} NoLineExactlyWhen(line: string, s: string)
    ensures CutFrom(line, s).lines == [] <==> NEWLINE !in s
    decreases |s|
  {
    if s != [] {
      assert s == [s[0]] + s[1..];
      if s[0] != NEWLINE {
        NoLineExactlyWhen(line + [s[0]], s[1..]);
      }
    }
  }

  ghost predicate NothingDiscarded(items: seq<Item>) {
    forall i :: i in items ==> i.Line?
  }

  function Texts(items: seq<Item>): seq<string> {
    seq(|items|, i requires 0 <= i < |items| => if items[i].Line? then items[i].text else "")
  }

  lemma OnlyLines(items: seq<Item>)
    requires NothingDiscarded(items)
    ensures items == Lines(Texts(items)) && Text(items) == Joined(Texts(items))
  {
    forall i | 0 <= i < |items| ensures items[i] == Lines(Texts(items))[i] {
      assert items[i] in items;
    }
    TextOfLines([], Texts(items));
    assert [] + Lines(Texts(items)) == items;
  }

  lemma PrefixOfLines(lines: seq<string>, rest: string)
    requires Clean(lines)
    ensures lines <= CutLines(Joined(lines) + rest).lines
    ensures lines == CutLines(Joined(lines) + rest).lines <==> NEWLINE !in rest
  {
    CutJoined(lines, rest);
    NoLineExactlyWhen([], rest);
  }

  // As long as no call has overflowed, what has been handed over are the first lines of the stream, in order; and it is
  // all of its complete lines exactly when no newline waits in the buffer.
  lemma LinesAreAPrefix(size: nat, pieces: seq<string>)
    requires NothingDiscarded(CallAll(size, pieces).items)
    ensures var log, all := CallAll(size, pieces), CutLines(Stream(pieces)).lines;
            && log.items == Lines(Texts(log.items))
            && Texts(log.items) <= all
            && (Texts(log.items) == all <==> NEWLINE !in log.rest)
  {
    var log := CallAll(size, pieces);
    EveryByteAccountedFor(size, pieces);
    NoNewlineInLines(size, pieces);
    OnlyLines(log.items);
    forall i | 0 <= i < |log.items| ensures NEWLINE !in Texts(log.items)[i] {
      assert log.items[i] in log.items;
    }
    PrefixOfLines(Texts(log.items), log.rest);
  }

  // A call that reads something overflows exactly when the buffer is full and there is no newline among the bytes that
  // are searched, and is a success otherwise; only after an overflow nothing is kept.
  lemma ResultExactlyWhen(size: nat, retained: string, piece: string)
    requires |retained + piece| <= size
    ensures var called := Call(size, retained, piece);
            && (called.result == Overflow <==> Overflows(size, retained, piece))
            && (called.result == Ok <==> !Overflows(size, retained, piece))
            && called.retained == if called.result == Overflow then "" else Frame(retained, piece).rest
  {
    var searched := (retained + piece)[..|piece|];
    FrameIsExact(retained, piece);
    NoLineExactlyWhen([], searched);
    var c := Frame(retained, piece);
    if c.lines == [] {
      assert Joined(c.lines) + c.rest == c.rest;
    } else {
      JoinedBefore(c.lines[0], c.lines[1..]);
      assert [c.lines[0]] + c.lines[1..] == c.lines;
    }
  }

  // So an overflow need not mean that a line is bigger than the buffer: it discards a complete line exactly when there
  // is a newline among the bytes that are not searched.
  lemma LineDiscardedExactlyWhen(size: nat, retained: string, piece: string)
    requires |retained + piece| <= size
    ensures Call(size, retained, piece).result == Overflow && NEWLINE in Frame(retained, piece).rest <==>
            Overflows(size, retained, piece) && NEWLINE in (retained + piece)[|piece|..]
  {
    ResultExactlyWhen(size, retained, piece);
    NothingLeftBehindExactlyWhen(retained, piece);
  }

  // A line that fits is discarded.
  lemma DiscardedLine()
    ensures Call(4, "abc", "\n") == Called(Overflow, [], "")
    ensures CutLines("abc" + "\n") == Cut(["abc"], "")
  {
    assert "abc" + "\n" == "abc\n" && "abc\n"[..1] == "a" && "abc\n"[1..] == "bc\n" && "a" + "bc\n" == "abc\n";
    assert CutLines("a") == Cut([], "a") by {
      assert "a"[1..] == "" && [] + ['a'] == "a";
    }
    CutFirstLine([], "abc", "");
    assert "abc" + [NEWLINE] + "" == "abc\n" && [] + "abc" == "abc";
  }

  // A call leaves no newline behind exactly when none of the bytes it does not search, as many as were in the buffer
  // before, is one.
  lemma NothingLeftBehindExactlyWhen(retained: string, piece: string)
    ensures NEWLINE !in Frame(retained, piece).rest <==> NEWLINE !in (retained + piece)[|piece|..]
  {
    CutIsExact([], (retained + piece)[..|piece|]);
  }

  // In particular lines are not delayed if the buffer is empty before each call.
  lemma AlignedPiecesAreNotDelayed(piece: string)
    ensures Frame("", piece) == CutLines(piece)
  {
    assert "" + piece == piece && piece[..|piece|] == piece && piece[|piece|..] == "";
  }

  // Otherwise they may be: a line that came in two pieces waits in the buffer although it is complete.
  lemma DelayedLine()
    ensures Frame("ab", "c\n") == Cut([], "abc\n")
    ensures CutLines("abc\n") == Cut(["abc"], "")
  {
    assert "ab" + "c\n" == "abc\n" && "abc\n"[..2] == "ab" && "abc\n"[2..] == "c\n";
    assert CutLines("ab") == Cut([], "ab") by {
      assert "ab"[1..] == "b" && "b"[1..] == "" && [] + ['a'] == "a" && "a" + ['b'] == "ab";
      assert CutFrom("a", "b") == CutFrom("ab", "");
    }
    assert "" + "ab" == "ab";
    CutFirstLine([], "abc", "");
    assert "abc" + [NEWLINE] + "" == "abc\n" && [] + "abc" == "abc";
  }

  // The calls if all bytes in the buffer were searched.
  function SearchAll(size: nat, pieces: seq<string>): Log {
    if pieces == [] then Log([], "")
    else
      var before := SearchAll(size, pieces[..|pieces| - 1]);
      var c := CutLines(before.rest + pieces[|pieces| - 1]);
      if |c.rest| == size then Log(before.items + Lines(c.lines) + [Discarded(c.rest)], "")
      else Log(before.items + Lines(c.lines), c.rest)
  }

  // All lines, with what ends them, and what follows the last one fit in a buffer of `size` bytes that is not to be
  // full.
  ghost predicate Fits(size: nat, c: Cut) {
    |c.rest| < size && forall i :: 0 <= i < |c.lines| ==> |c.lines[i]| < size
  }

  lemma CutAppend(s: string, t: string)
    ensures CutLines(s + t) == Before(CutLines(s).lines, CutLines(CutLines(s).rest + t))
  {
    var c := CutLines(s);
    CutIsExact([], s);
    CutJoined(c.lines, c.rest + t);
    Associative(Joined(c.lines), c.rest, t);
    assert [] + s == s;
  }

  lemma {:induction false} LineIsBegun(line: string, s: string)
    ensures var c := CutFrom(line, s); line <= if c.lines == [] then c.rest else c.lines[0]
    decreases |s|
  {
    if s != [] && s[0] != NEWLINE {
      LineIsBegun(line + [s[0]], s[1..]);
    }
  }

  lemma {:induction false} CutTwice(line: string, r: string, t: string)
    requires NEWLINE !in r
    ensures CutFrom(line, r + t) == CutFrom(line + r, t)
    decreases |r|
  {
    if r == [] {
      assert r + t == t && line + r == line;
    } else {
      assert (r + t)[1..] == r[1..] + t && line + [r[0]] + r[1..] == line + r;
      CutTwice(line + [r[0]], r[1..], t);
    }
  }

  lemma LessFits(size: nat, s: string, t: string)
    requires Fits(size, CutLines(s + t))
    ensures Fits(size, CutLines(s))
  {
    var c := CutLines(s);
    CutAppend(s, t);
    CutIsExact([], s);
    CutTwice([], c.rest, t);
    LineIsBegun(c.rest, t);
    assert [] + c.rest == c.rest;
    var all, more := CutLines(s + t), CutLines(c.rest + t);
    forall i | 0 <= i < |c.lines| ensures |c.lines[i]| < size {
      assert all.lines[i] == c.lines[i];
    }
    if more.lines != [] {
      assert all.lines[|c.lines|] == more.lines[0];
    }
  }

  // With every byte searched the lines of the stream are handed over, however it is cut into pieces, if only each fits.
  lemma {:induction false} SearchingAllIsExact(size: nat, pieces: seq<string>)
    requires Fits(size, CutLines(Stream(pieces)))
    ensures var c := CutLines(Stream(pieces)); SearchAll(size, pieces) == Log(Lines(c.lines), c.rest)
  {
    if pieces != [] {
      var front, piece := pieces[..|pieces| - 1], pieces[|pieces| - 1];
      LessFits(size, Stream(front), piece);
      SearchingAllIsExact(size, front);
      CutAppend(Stream(front), piece);
      var c, d := CutLines(Stream(front)), CutLines(CutLines(Stream(front)).rest + piece);
      assert Lines(c.lines) + Lines(d.lines) == Lines(c.lines + d.lines);
    }
  }
}
