/**
 The Redis serialization protocol: internal/protocol/redis/parser.go.

 Go strings are byte strings here and lengths are mathematical integers. The reader is a function,
 `Read`; the methods are the code's loops and are proved to compute it.
 */
module Resp {
  import opened Common
  import opened Decimal
  import opened Join
  import opened Framing

  const CR: byte := 13
  const LF: byte := 10
  const SIMPLE: byte := 43
  const ERROR: byte := 45
  const INTEGER: byte := 58
  const BULK: byte := 36
  const ARRAY: byte := 42
  const SPACE: byte := 32

  const CRLF: bytes := [CR, LF]
  const NIL_TEXT: bytes := [40, 110, 105, 108, 41]            // "(nil)"
  const ARRAY_TEXT: bytes := [40, 97, 114, 114, 97, 121, 41]  // "(array)"

  // ------------------------------------------------------------------ lines

  predicate CrlfAt(d: bytes, i: int) { 0 <= i && i + 1 < |d| && d[i] == CR && d[i + 1] == LF }

  /** bytes.Index for "\r\n". */
  function CrlfIndex(d: bytes): (i: int)
    ensures -1 <= i && (i >= 0 ==> CrlfAt(d, i))
    ensures forall k :: CrlfAt(d, k) ==> 0 <= i <= k
  {
    if |d| < 2 then -1
    else if d[0] == CR && d[1] == LF then 0
    else
      var i := CrlfIndex(d[1..]);
      assert forall k :: CrlfAt(d, k) ==> CrlfAt(d[1..], k - 1);
      if i < 0 then -1 else i + 1
  }

  ghost predicate NoCrlf(s: bytes) { forall k :: !CrlfAt(s, k) }

  /** A line free of "\r\n" ends at the terminator that follows it, whatever comes after. */
  lemma LineEnds(line: bytes, rest: bytes)
    requires NoCrlf(line)
    ensures CrlfIndex(line + CRLF + rest) == |line|
  {
    var d := line + CRLF + rest;
    assert CrlfAt(d, |line|);
    var i := CrlfIndex(d);
    assert i + 1 < |line| ==> CrlfAt(line, i);
  }

  /** The first line depends on the bytes up to its terminator only. */
  lemma LineCut(d: bytes, n: nat, x: bytes)
    requires CrlfIndex(d) >= 0 && CrlfIndex(d) + 2 <= n <= |d|
    ensures var i, e := CrlfIndex(d), d[..n] + x;
      CrlfIndex(e) == i && e[..i] == d[..i] && (i > 0 ==> e[0] == d[0] && e[1..i] == d[1..i])
  {
    hide CrlfIndex;
    var i, e := CrlfIndex(d), d[..n] + x;
    assert CrlfAt(d, i);
    assert forall k :: 0 <= k < n ==> e[k] == d[k];
    assert CrlfAt(e, i);
    var j := CrlfIndex(e);
    assert j < i ==> CrlfAt(d, j);
  }

  // ------------------------------------------------------------------ the reader

  /** readRESPValue's result; the code's failure is ("", 0). */
  datatype Reading = Failed | Got(text: bytes, n: nat)

  function Read(d: bytes): (r: Reading)
    ensures r.Got? ==> 2 <= r.n <= |d|
    decreases |d|, 0
  {
    var idx := CrlfIndex(d);
    if idx < 0 then Failed
    else if d[0] == SIMPLE || d[0] == ERROR || d[0] == INTEGER then Got(d[1..idx], idx + 2)
    else if d[0] == BULK then ReadBulk(d, idx + 2, Atoi(d[1..idx]))
    else if d[0] == ARRAY then
      match Counted(Atoi(d[1..idx]))
      case None => Failed
      case Some(count) =>
        match ReadMany(d[idx + 2..], count)
        case None => Failed
        case Some((_, n)) => Got(ARRAY_TEXT, idx + 2 + n)
    else Got(d[..idx], idx + 2)
  }

  function ReadBulk(d: bytes, pos: nat, length: Option<int>): (r: Reading)
    requires 2 <= pos <= |d|
    ensures r.Got? ==> pos <= r.n <= |d|
  {
    match length
    case None => Failed
    case Some(length) =>
      if length < 0 then Got(NIL_TEXT, pos)
      else if pos + length + 2 > |d| then Failed
      else Got(d[pos..pos + length], pos + length + 2)
  }

  /** An element count that parsed and is not negative. */
  function Counted(count: Option<int>): Option<nat> {
    match count
    case None => None
    case Some(n) => if n < 0 then None else Some(n)
  }

  /** `count` values one after the other: their texts and total length. */
  function ReadMany(d: bytes, count: nat): (r: Option<(seq<bytes>, nat)>)
    ensures r.Some? ==> 2 * count <= r.value.1 <= |d| && |r.value.0| == count
    decreases |d|, 1
  {
    if count == 0 then Some(([], 0))
    else match Read(d)
      case Failed => None
      case Got(text, n) =>
        match ReadMany(d[n..], count - 1)
        case None => None
        case Some((texts, m)) => Some(([text] + texts, n + m))
  }

  lemma ManyNone(d: bytes)
    ensures ReadMany(d, 0) == Some(([], 0))
  {}

  /** One turn of an array loop at a cursor. */
  lemma ManyStep(d: bytes, cursor: nat, count: nat)
    requires cursor <= |d| && count > 0
    ensures Read(d[cursor..]).Failed? ==> ReadMany(d[cursor..], count).None?
    ensures Read(d[cursor..]).Got? ==>
      var (text, n) := (Read(d[cursor..]).text, Read(d[cursor..]).n);
      ReadMany(d[cursor..], count) == match ReadMany(d[cursor + n..], count - 1)
        case None => None
        case Some((texts, m)) => Some(([text] + texts, n + m))
  {
    hide Read;
    if Read(d[cursor..]).Got? {
      var n := Read(d[cursor..]).n;
      assert d[cursor..][n..] == d[cursor + n..];
    }
  }

  /** readRESPValue: branches, with the array case's loop over a cursor. */
  method ReadValue(d: bytes) returns (text: bytes, n: int)
    ensures match Read(d)
      case Failed => text == [] && n == 0
      case Got(t, m) => text == t && n == m
    decreases |d|
  {
    hide Atoi, CrlfIndex, ReadMany;
    if |d| == 0 { return [], 0; }
    var idx := CrlfIndex(d);
    if idx < 0 { return [], 0; }
    var pos := idx + 2;
    if d[0] == SIMPLE || d[0] == ERROR || d[0] == INTEGER { return d[1..idx], pos; }
    if d[0] == BULK {
      var length := Atoi(d[1..idx]);
      if length.None? { return [], 0; }
      if length.value < 0 { return NIL_TEXT, pos; }
      var end := pos + length.value + 2;
      if end > |d| { return [], 0; }
      return d[pos..pos + length.value], end;
    }
    if d[0] == ARRAY {
      var count := Counted(Atoi(d[1..idx]));
      if count.None? { return [], 0; }
      var cursor := pos;
      ghost var all := ReadMany(d[pos..], count.value);
      for i := 0 to count.value
        invariant pos <= cursor <= |d|
        invariant match ReadMany(d[cursor..], count.value - i)
          case None => all.None?
          case Some((_, m)) => all.Some? && pos + all.value.1 == cursor + m
      {
        var _, m := ReadValue(d[cursor..]);
        ManyStep(d, cursor, count.value - i);
        if m <= 0 { return [], 0; }
        cursor := cursor + m;
      }
      ManyNone(d[cursor..]);
      return ARRAY_TEXT, cursor;
    }
    return d[..idx], pos;
  }

  // ------------------------------------------------------------------ self-delimiting

  lemma BulkCut(d: bytes, pos: nat, length: Option<int>, x: bytes)
    requires 2 <= pos <= |d| && ReadBulk(d, pos, length).Got?
    ensures var n := ReadBulk(d, pos, length).n;
      ReadBulk(d[..n] + x, pos, length) == ReadBulk(d, pos, length)
  {
    var n := ReadBulk(d, pos, length).n;
    if length.value >= 0 { assert (d[..n] + x)[pos..pos + length.value] == d[pos..pos + length.value]; }
  }

  /** A successful read depends on the bytes it consumes and on nothing after them. */
  lemma {:induction false} ReadCut(d: bytes, x: bytes)
    requires Read(d).Got?
    ensures Read(d[..Read(d).n] + x) == Read(d)
    decreases |d|, 0
  {
    hide Atoi, CrlfIndex, ReadBulk;
    var n, idx := Read(d).n, CrlfIndex(d);
    LineCut(d, n, x);
    if d[0] == BULK {
      BulkCut(d, idx + 2, Atoi(d[1..idx]), x);
    } else if d[0] == ARRAY {
      ReadManyCut(d[idx + 2..], Counted(Atoi(d[1..idx])).value, x);
      assert (d[..n] + x)[idx + 2..] == d[idx + 2..][..n - idx - 2] + x;
    }
  }

  lemma {:induction false} ReadManyCut(d: bytes, count: nat, x: bytes)
    requires ReadMany(d, count).Some?
    ensures ReadMany(d[..ReadMany(d, count).value.1] + x, count) == ReadMany(d, count)
    decreases |d|, 1
  {
    hide Read;
    if count > 0 {
      var n, total := Read(d).n, ReadMany(d, count).value.1;
      var m := ReadMany(d[n..], count - 1).value.1;
      ReadCut(d, d[n..total] + x);
      assert d[..n] + (d[n..total] + x) == d[..total] + x;
      ReadManyCut(d[n..], count - 1, x);
      assert (d[..total] + x)[n..] == d[n..][..m] + x;
    }
  }

  // ------------------------------------------------------------------ values

  datatype Value =
    | SimpleString(text: bytes)
    | Error(text: bytes)
    | Integer(number: int)
    | BulkString(data: bytes)
    | NullBulk
    | NullArray
    | Inline(text: bytes)
    | Array(elems: seq<Value>)

  /** What %d prints. */
  function IntText(n: int): bytes { if n < 0 then [45] + Numeral(-n) else Numeral(n) }

  /** The wire form, tags and terminators given as the bytes they are. An inline command has no tag. */
  function Encode(v: Value): bytes
    decreases v, 0
  {
    match v
    case SimpleString(text) => [43] + text + [13, 10]
    case Error(text) => [45] + text + [13, 10]
    case Integer(number) => [58] + IntText(number) + [13, 10]
    case BulkString(data) => [36] + Numeral(|data|) + [13, 10] + data + [13, 10]
    case NullBulk => [36, 45, 49, 13, 10]
    case NullArray => [42, 45, 49, 13, 10]
    case Inline(text) => text + [13, 10]
    case Array(elems) => [42] + Numeral(|elems|) + [13, 10] + EncodeMany(elems)
  }

  function EncodeMany(vs: seq<Value>): bytes
    decreases vs, 1
  {
    if vs == [] then [] else Encode(vs[0]) + EncodeMany(vs[1..])
  }

  /** Lines hold no line terminator and sizes fit a machine integer; bulk data is arbitrary. */
  ghost predicate Legal(v: Value)
    decreases v, 0
  {
    match v
    case SimpleString(text) => NoCrlf(text)
    case Error(text) => NoCrlf(text)
    case Integer(_) => true
    case BulkString(data) => |data| <= MAX_INT
    case NullBulk => true
    case NullArray => true
    case Inline(text) => NoCrlf(text) && (text == [] || text[0] !in {43, 45, 58, 36, 42})
    case Array(elems) => |elems| <= MAX_INT && LegalMany(elems)
  }

  ghost predicate LegalMany(vs: seq<Value>)
    decreases vs, 1
  {
    vs == [] || (Legal(vs[0]) && LegalMany(vs[1..]))
  }

  /** A null array somewhere in the value, at any depth. */
  predicate HasNullArray(v: Value)
    decreases v, 0
  {
    match v
    case NullArray => true
    case Array(elems) => AnyHasNullArray(elems)
    case _ => false
  }

  predicate AnyHasNullArray(vs: seq<Value>)
    decreases vs, 1
  {
    vs != [] && (HasNullArray(vs[0]) || AnyHasNullArray(vs[1..]))
  }

  /** The text readRESPValue returns for a value; with a null array in it, the text of its failure. */
  function Text(v: Value): bytes {
    match v
    case SimpleString(text) => text
    case Error(text) => text
    case Integer(number) => IntText(number)
    case BulkString(data) => data
    case NullBulk => [40, 110, 105, 108, 41]
    case NullArray => []
    case Inline(text) => text
    case Array(_) => [40, 97, 114, 114, 97, 121, 41]
  }

  function Texts(vs: seq<Value>): seq<bytes> { if vs == [] then [] else [Text(vs[0])] + Texts(vs[1..]) }

  lemma NumeralLine(n: nat)
    ensures NoCrlf(Numeral(n)) && NoCrlf([MINUS] + Numeral(n))
  {
    NumeralReads(n);
    var s := [MINUS] + Numeral(n);
    forall k ensures !CrlfAt(s, k) {
      if 0 < k && k + 1 < |s| { assert s[k] == Numeral(n)[k - 1] && IsDigit(s[k]); }
    }
  }

  lemma TaggedLine(tag: byte, line: bytes, rest: bytes)
    requires NoCrlf(line) && tag != CR
    ensures var d := [tag] + line + CRLF + rest;
      CrlfIndex(d) == |line| + 1 && d[1..|line| + 1] == line && d[|line| + 3..] == rest
  {
    forall k ensures !CrlfAt([tag] + line, k) {
      if k > 0 && k + 1 < |line| + 1 { assert !CrlfAt(line, k - 1); }
    }
    LineEnds([tag] + line, rest);
  }

  lemma ReadLine(tag: byte, line: bytes, tail: bytes)
    requires tag == SIMPLE || tag == ERROR || tag == INTEGER
    requires NoCrlf(line)
    ensures Read([tag] + line + CRLF + tail) == Got(line, |line| + 3)
  {
    hide CrlfIndex;
    TaggedLine(tag, line, tail);
  }

  lemma ReadInline(text: bytes, tail: bytes)
    requires NoCrlf(text) && (text == [] || text[0] !in {43, 45, 58, 36, 42})
    ensures Read(text + CRLF + tail) == Got(text, |text| + 2)
  {
    hide CrlfIndex;
    LineEnds(text, tail);
  }

  lemma ReadBulkData(data: bytes, tail: bytes)
    requires |data| <= MAX_INT
    ensures Read([BULK] + Numeral(|data|) + CRLF + (data + CRLF + tail)) == Got(data, |Numeral(|data|)| + |data| + 5)
  {
    hide CrlfIndex, Atoi;
    var rest := data + CRLF + tail;
    var d, pos := [BULK] + Numeral(|data|) + CRLF + rest, |Numeral(|data|)| + 3;
    NumeralLine(|data|);
    AtoiNumeral(|data|);
    TaggedLine(BULK, Numeral(|data|), rest);
    assert d[pos..pos + |data|] == rest[..|data|] == data;
  }

  lemma ReadNull(tail: bytes)
    ensures Read([BULK] + [MINUS, 49] + CRLF + tail) == Got(NIL_TEXT, 5)
  {
    hide CrlfIndex, Atoi;
    var one: bytes := [MINUS, 49];
    assert Numeral(1) == [49] && one == [MINUS] + Numeral(1);
    NumeralLine(1);
    AtoiMinusOne();
    TaggedLine(BULK, one, tail);
  }

  lemma ReadNullArray(tail: bytes)
    ensures Read([ARRAY] + [MINUS, 49] + CRLF + tail) == Failed
  {
    hide CrlfIndex, Atoi;
    var one: bytes := [MINUS, 49];
    assert Numeral(1) == [49] && one == [MINUS] + Numeral(1);
    NumeralLine(1);
    AtoiMinusOne();
    TaggedLine(ARRAY, one, tail);
  }

  lemma ReadArray(count: nat, rest: bytes)
    requires count <= MAX_INT
    ensures var d := [ARRAY] + Numeral(count) + CRLF + rest;
      && Read(d) == (match ReadMany(rest, count)
                     case None => Failed
                     case Some((_, n)) => Got(ARRAY_TEXT, |Numeral(count)| + 3 + n))
      && CrlfIndex(d) == |Numeral(count)| + 1
      && Atoi(d[1..CrlfIndex(d)]) == Some(count) && d[CrlfIndex(d) + 2..] == rest
  {
    hide CrlfIndex, Atoi, ReadMany;
    NumeralLine(count);
    AtoiNumeral(count);
    TaggedLine(ARRAY, Numeral(count), rest);
  }

  /**
   Round trip: whatever bytes follow, reading consumes exactly the encoding and returns the value's text,
   for every value tree without a null array. With one, at whatever depth, reading fails. Bulk data may
   contain line terminators.
   */
  lemma {:induction false} ReadEncoded(v: Value, tail: bytes)
    requires Legal(v)
    ensures Read(Encode(v) + tail) == if HasNullArray(v) then Failed else Got(Text(v), |Encode(v)|)
    decreases v, 0
  {
    hide Read, ReadMany, Numeral, NoCrlf;
    var d := Encode(v) + tail;
    match v
    case SimpleString(text) => ReadLine(SIMPLE, text, tail);
    case Error(text) => ReadLine(ERROR, text, tail);
    case Integer(number) =>
      NumeralLine(if number < 0 then -number else number);
      ReadLine(INTEGER, IntText(number), tail);
    case BulkString(data) =>
      assert d == [BULK] + Numeral(|data|) + CRLF + (data + CRLF + tail);
      ReadBulkData(data, tail);
    case Inline(text) => ReadInline(text, tail);
    case NullBulk =>
      assert d == [BULK] + [MINUS, 49] + CRLF + tail;
      ReadNull(tail);
    case NullArray =>
      assert d == [ARRAY] + [MINUS, 49] + CRLF + tail;
      ReadNullArray(tail);
    case Array(elems) =>
      assert d == [ARRAY] + Numeral(|elems|) + CRLF + (EncodeMany(elems) + tail);
      ReadEncodedMany(elems, tail);
      ReadArray(|elems|, EncodeMany(elems) + tail);
  }

  lemma {:induction false} ReadEncodedMany(vs: seq<Value>, tail: bytes)
    requires LegalMany(vs)
    ensures ReadMany(EncodeMany(vs) + tail, |vs|)
         == if AnyHasNullArray(vs) then None else Some((Texts(vs), |EncodeMany(vs)|))
    decreases vs, 1
  {
    hide Read, Encode, Text, Legal;
    if vs != [] {
      var rest := EncodeMany(vs[1..]) + tail;
      ReadEncoded(vs[0], rest);
      assert EncodeMany(vs) + tail == Encode(vs[0]) + rest;
      assert (Encode(vs[0]) + rest)[|Encode(vs[0])|..] == rest;
      ReadEncodedMany(vs[1..], tail);
    }
  }

  lemma AtoiMinusOne()
    ensures Atoi([MINUS, 49]) == Some(-1)
  {
    var s: bytes := [MINUS, 49];
    assert s[1..] == [49] == Numeral(1);
    NumeralReads(1);
  }

  // ------------------------------------------------------------------ when reading fails

  /**
   A read fails exactly without a line terminator, for a bulk string whose length is no number or runs past
   the data, and for an array whose count is no number, is negative, or has an element that fails.
   */
  lemma ReadFailsExactly(d: bytes)
    ensures Read(d).Failed? <==>
      var idx := CrlfIndex(d);
      || idx < 0
      || (d[0] == 36 && match Atoi(d[1..idx]) case None => true case Some(len) => len >= 0 && idx + 2 + len + 2 > |d|)
      || (d[0] == 42 && match Atoi(d[1..idx])
                        case None => true
                        case Some(count) => count < 0 || ReadMany(d[idx + 2..], count).None?)
  {
    hide CrlfIndex, Atoi, ReadMany;
  }

  /** The element behind the first k fails. */
  predicate FailsBehind(d: bytes, k: nat) {
    ReadMany(d, k).Some? && Read(d[ReadMany(d, k).value.1..]).Failed?
  }

  lemma ManyOneMore(d: bytes, k: nat)
    ensures Read(d).Failed? ==> ReadMany(d, k + 1).None?
    ensures Read(d).Got? ==>
      var rest := ReadMany(d[Read(d).n..], k);
      && (ReadMany(d, k + 1).None? <==> rest.None?)
      && (rest.Some? ==> ReadMany(d, k + 1).value.1 == Read(d).n + rest.value.1)
  {
    hide Read;
  }

  lemma FailsBehindOneMore(d: bytes, k: nat)
    requires Read(d).Got?
    ensures FailsBehind(d, k + 1) <==> FailsBehind(d[Read(d).n..], k)
  {
    hide Read, ReadMany;
    ManyOneMore(d, k);
    var n := Read(d).n;
    if ReadMany(d[n..], k).Some? {
      var m := ReadMany(d[n..], k).value.1;
      assert d[n..][m..] == d[n + m..];
    }
  }

  lemma FailsBehindNone(d: bytes)
    ensures FailsBehind(d, 0) <==> Read(d).Failed?
  {
    hide Read;
    assert d[0..] == d;
  }

  /** Elements cannot be read exactly when one fails behind those that can. */
  lemma {:induction false} ManyFailExactly(d: bytes, count: nat)
    ensures ReadMany(d, count).None? <==> exists k: nat :: k < count && FailsBehind(d, k)
    decreases count
  {
    hide Read, ReadMany, FailsBehind;
    ManyNone(d);
    FailsBehindNone(d);
    if count > 0 {
      ManyOneMore(d, count - 1);
      if Read(d).Got? {
        var rest := d[Read(d).n..];
        ManyFailExactly(rest, count - 1);
        forall k: nat | k < count - 1 ensures FailsBehind(d, k + 1) <==> FailsBehind(rest, k) {
          FailsBehindOneMore(d, k);
        }
        if ReadMany(rest, count - 1).None? {
          var k: nat :| k < count - 1 && FailsBehind(rest, k);
          assert FailsBehind(d, k + 1);
        } else {
          forall k: nat | k < count ensures !FailsBehind(d, k) {
            if k > 0 { assert !FailsBehind(rest, k - 1); }
          }
        }
      }
    }
  }

  // ------------------------------------------------------------------ top-level events

  /** A command with its argument texts and captured statement, or an error reply. */
  datatype Event = Command(dir: Dir, args: seq<bytes>, statement: bytes) | ErrorReply(message: bytes)

  /** decodeOne's result; n == 0 stops the loop. */
  datatype Decoded = Decoded(event: Option<Event>, n: nat)

  function CommandOf(args: seq<bytes>, limit: int, fromClient: bool): Option<Event> {
    if args == [] then None
    else Some(Command(if fromClient then Request else Response, args, Truncated(Joined(args, SPACE), limit)))
  }

  /** decodeArray: the second reader of arrays, with its own loop over the elements. */
  method DecodeArray(d: bytes, limit: int, fromClient: bool) returns (r: Decoded)
    requires d != [] && d[0] == ARRAY
    ensures r == DecodeOne(d, limit, fromClient)
  {
    hide Atoi, CrlfIndex, CommandOf, Read, ReadMany;
    var idx := CrlfIndex(d);
    if idx < 0 { return Decoded(None, 0); }
    var pos := idx + 2;
    var count := Counted(Atoi(d[1..idx]));
    if count.None? { return Decoded(None, 0); }
    var args: seq<bytes>, cursor := [], pos;
    ghost var all := ReadMany(d[pos..], count.value);
    assert all.Some? ==> [] + all.value.0 == all.value.0;
    for i := 0 to count.value
      invariant pos <= cursor <= |d|
      invariant match ReadMany(d[cursor..], count.value - i)
        case None => all.None?
        case Some((texts, m)) => all == Some((args + texts, cursor + m - pos))
    {
      var val, n := ReadValue(d[cursor..]);
      ManyStep(d, cursor, count.value - i);
      if n <= 0 { return Decoded(None, 0); }
      ghost var rest := ReadMany(d[cursor + n..], count.value - i - 1);
      if rest.Some? { assert args + ([val] + rest.value.0) == args + [val] + rest.value.0; }
      args := args + [val];
      cursor := cursor + n;
    }
    ManyNone(d[cursor..]);
    assert args + [] == args;
    r := Decoded(CommandOf(args, limit, fromClient), cursor);
  }

  function DecodeOne(d: bytes, limit: int, fromClient: bool): Decoded {
    var idx := CrlfIndex(d);
    if idx < 0 then Decoded(None, 0)
    else if d[0] == ARRAY then
      match Counted(Atoi(d[1..idx]))
      case None => Decoded(None, 0)
      case Some(count) =>
        match ReadMany(d[idx + 2..], count)
        case None => Decoded(None, 0)
        case Some((args, n)) => Decoded(CommandOf(args, limit, fromClient), idx + 2 + n)
    else if d[0] == ERROR then Decoded(Some(ErrorReply(d[1..idx])), idx + 2)
    else match Read(d)
      case Failed => Decoded(None, 0)
      case Got(_, n) => Decoded(None, n)
  }

  /** The two readers agree on how many bytes a value takes, on every input, and on failure. */
  lemma ReadersAgree(d: bytes, limit: int, fromClient: bool)
    ensures DecodeOne(d, limit, fromClient).n == match Read(d) case Failed => 0 case Got(_, n) => n
  {}

  function TurnAt(d: bytes, limit: int, fromClient: bool): Turn<Event> {
    var r := DecodeOne(d, limit, fromClient);
    if r.n == 0 then Stop else Take(r.n, r.event)
  }

  function Values(limit: int, fromClient: bool): Framer<Event> { d => TurnAt(d, limit, fromClient) }

  lemma DecodeOneCut(d: bytes, x: bytes, limit: int, fromClient: bool)
    requires DecodeOne(d, limit, fromClient).n > 0
    ensures var n := DecodeOne(d, limit, fromClient).n;
      n <= |d| && DecodeOne(d[..n] + x, limit, fromClient) == DecodeOne(d, limit, fromClient)
  {
    hide Atoi, CrlfIndex, ReadBulk, CommandOf, ReadMany;
    ReadersAgree(d, limit, fromClient);
    var n, idx := Read(d).n, CrlfIndex(d);
    LineCut(d, n, x);
    if d[0] == ARRAY {
      ReadManyCut(d[idx + 2..], Counted(Atoi(d[1..idx])).value, x);
      assert (d[..n] + x)[idx + 2..] == d[idx + 2..][..n - idx - 2] + x;
    } else {
      ReadCut(d, x);
    }
  }

  lemma ValuesSelfDelimiting(limit: int, fromClient: bool)
    ensures SelfDelimiting(Values(limit, fromClient))
  {
    var f := Values(limit, fromClient);
    forall d: bytes, x: bytes | f(d).Take? ensures 0 < f(d).n <= |d| && f(Cut(f, d, x)) == f(d) {
      DecodeOneCut(d, x, limit, fromClient);
    }
  }

  /** Parse: the loop over decodeOne. */
  method Parse(data: bytes, limit: int, fromClient: bool) returns (events: seq<Event>)
    ensures events == Run(Values(limit, fromClient), data).0
  {
    hide Run, SelfDelimiting, DecodeOne;
    events := [];
    var d := data;
    ghost var f := Values(limit, fromClient);
    ValuesSelfDelimiting(limit, fromClient);
    assert [] + Run(f, d).0 == Run(f, d).0;
    while |d| > 0
      invariant events + Run(f, d).0 == Run(f, data).0
      decreases |d|
    {
      var r: Decoded;
      if d[0] == ARRAY { r := DecodeArray(d, limit, fromClient); } else { r := DecodeOne(d, limit, fromClient); }
      if r.n <= 0 { break; }
      LoopStep(f, d, events, r.n, r.event);
      events := events + OptionSeq(r.event);
      d := d[r.n..];
    }
    NothingToRead(limit, fromClient);
    LoopEnd(f, d, events);
  }

  lemma NothingToRead(limit: int, fromClient: bool)
    ensures Values(limit, fromClient)([]).Stop?
  {}

  /** The event a value gives at top level. */
  function EventOf(v: Value, limit: int, fromClient: bool): Option<Event> {
    match v
    case Array(elems) => CommandOf(Texts(elems), limit, fromClient)
    case Error(text) => Some(ErrorReply(text))
    case _ => None
  }

  lemma ValueIsFrame(v: Value, limit: int, fromClient: bool)
    requires Legal(v) && !HasNullArray(v)
    ensures IsFrame(Values(limit, fromClient), Encode(v), EventOf(v, limit, fromClient))
  {
    hide Read, ReadMany, Numeral, NoCrlf, CrlfIndex, Atoi, CommandOf;
    var d := Encode(v);
    assert d + [] == d;
    ReadEncoded(v, []);
    ReadersAgree(d, limit, fromClient);
    match v
    case Array(elems) =>
      ReadEncodedMany(elems, []);
      assert EncodeMany(elems) + [] == EncodeMany(elems);
      ReadArray(|elems|, EncodeMany(elems));
    case Error(text) =>
      TaggedLine(ERROR, text, []);
      assert d == [ERROR] + text + CRLF + [];
    case _ =>
  }

  /** In front of a value that holds a null array the loop stops: neither it nor anything behind it is read. */
  lemma NullArrayStops(v: Value, tail: bytes, limit: int, fromClient: bool)
    requires Legal(v) && HasNullArray(v)
    ensures Run(Values(limit, fromClient), Encode(v) + tail) == ([], Encode(v) + tail)
  {
    hide Read, DecodeOne;
    ReadEncoded(v, tail);
    ReadersAgree(Encode(v) + tail, limit, fromClient);
  }

  /** The events of values, in order. */
  function EventsOf(vs: seq<Value>, limit: int, fromClient: bool): seq<Event> {
    if vs == [] then [] else OptionSeq(EventOf(vs[0], limit, fromClient)) + EventsOf(vs[1..], limit, fromClient)
  }

  /** How many values stand before the first that holds a null array. */
  function Readable(vs: seq<Value>): (n: nat)
    ensures n <= |vs|
    ensures n == |vs| <==> !AnyHasNullArray(vs)
    ensures n < |vs| ==> HasNullArray(vs[n])
  {
    if vs == [] || HasNullArray(vs[0]) then 0 else 1 + Readable(vs[1..])
  }

  lemma {:induction false} StreamRuns(vs: seq<Value>, tail: bytes, limit: int, fromClient: bool)
    requires LegalMany(vs)
    ensures var f, n := Values(limit, fromClient), Readable(vs);
      Run(f, EncodeMany(vs) + tail)
      == if n == |vs| then (EventsOf(vs, limit, fromClient) + Run(f, tail).0, Run(f, tail).1)
         else (EventsOf(vs[..n], limit, fromClient), EncodeMany(vs[n..]) + tail)
    decreases |vs|
  {
    hide Run, Encode, EventOf, Legal, HasNullArray, SelfDelimiting, OptionSeq, EventsOf, Readable;
    var f := Values(limit, fromClient);
    EventsOfNone(limit, fromClient);
    if vs == [] {
      assert EncodeMany(vs) + tail == tail && [] + Run(f, tail).0 == Run(f, tail).0;
    } else {
      var v, rest := vs[0], EncodeMany(vs[1..]) + tail;
      assert EncodeMany(vs) + tail == Encode(v) + rest;
      ReadableCons(vs);
      if HasNullArray(v) {
        NullArrayStops(v, rest, limit, fromClient);
        assert vs[0..] == vs && vs[..0] == [];
      } else {
        StreamRuns(vs[1..], tail, limit, fromClient);
        OneValueRuns(v, rest, limit, fromClient);
        hide EncodeMany;
        var n := Readable(vs[1..]);
        EventsOfCons(v, vs[1..], limit, fromClient);
        EventsOfCons(v, vs[1..][..n], limit, fromClient);
        assert vs == [v] + vs[1..] && vs[..n + 1] == [v] + vs[1..][..n] && vs[n + 1..] == vs[1..][n..];
        Regrouped(OptionSeq(EventOf(v, limit, fromClient)), EventsOf(vs[1..], limit, fromClient), Run(f, tail).0);
      }
    }
  }

  lemma EventsOfNone(limit: int, fromClient: bool)
    ensures EventsOf([], limit, fromClient) == []
  {}

  lemma EventsOfCons(v: Value, vs: seq<Value>, limit: int, fromClient: bool)
    ensures EventsOf([v] + vs, limit, fromClient)
         == OptionSeq(EventOf(v, limit, fromClient)) + EventsOf(vs, limit, fromClient)
  {
    assert ([v] + vs)[1..] == vs;
  }

  lemma ReadableCons(vs: seq<Value>)
    ensures vs == [] ==> Readable(vs) == 0
    ensures vs != [] ==> Readable(vs) == if HasNullArray(vs[0]) then 0 else 1 + Readable(vs[1..])
  {}

  lemma OneValueRuns(v: Value, rest: bytes, limit: int, fromClient: bool)
    requires Legal(v) && !HasNullArray(v)
    ensures var f := Values(limit, fromClient);
      Run(f, Encode(v) + rest) == (OptionSeq(EventOf(v, limit, fromClient)) + Run(f, rest).0, Run(f, rest).1)
  {
    hide Run, Encode, EventOf, SelfDelimiting;
    var f := Values(limit, fromClient);
    ValueIsFrame(v, limit, fromClient);
    ValuesSelfDelimiting(limit, fromClient);
    FrameRead(f, Encode(v), EventOf(v, limit, fromClient), rest);
  }

  lemma EncodingTakesRoom(v: Value)
    ensures Encode(v) != []
  {}

  /**
   Encoded values followed by any bytes give one event for each non-empty top-level array and each error,
   in order, then exactly the events of those bytes, if and only if no value holds a null array. Otherwise
   the events are those of the values before the first such value, and reading stops in front of it.
   */
  lemma StreamRoundTrip(vs: seq<Value>, tail: bytes, limit: int, fromClient: bool)
    requires LegalMany(vs)
    ensures var f := Values(limit, fromClient);
      Run(f, EncodeMany(vs) + tail) == (EventsOf(vs, limit, fromClient) + Run(f, tail).0, Run(f, tail).1)
      <==> !AnyHasNullArray(vs)
    ensures AnyHasNullArray(vs) ==>
      var n := Readable(vs);
      && n < |vs| && HasNullArray(vs[n]) && !AnyHasNullArray(vs[..n])
      && Run(Values(limit, fromClient), EncodeMany(vs) + tail)
         == (EventsOf(vs[..n], limit, fromClient), EncodeMany(vs[n..]) + tail)
  {
    hide Run, Encode, EventOf, HasNullArray;
    StreamRuns(vs, tail, limit, fromClient);
    var n := Readable(vs);
    BeforeFirst(vs);
    if n < |vs| { EncodingTakesRoom(vs[n]); }
  }

  lemma {:induction false} BeforeFirst(vs: seq<Value>)
    ensures !AnyHasNullArray(vs[..Readable(vs)])
  {
    hide HasNullArray;
    if vs != [] && !HasNullArray(vs[0]) {
      BeforeFirst(vs[1..]);
      var n := Readable(vs[1..]);
      assert vs[..n + 1][1..] == vs[1..][..n];
    }
  }

  /**
   What a command event holds: a non-empty array at the front gives one event, filed under the direction of
   its sender, whose arguments are the elements' texts. Without a limit, and with no space in an argument,
   the statement splits into the arguments; with one it is the prefix of that length.
   */
  lemma CommandFromTheWire(elems: seq<Value>, tail: bytes, limit: int, fromClient: bool)
    requires Legal(Array(elems)) && elems != [] && !AnyHasNullArray(elems)
    ensures var (events, rest) := Run(Values(limit, fromClient), Encode(Array(elems)) + tail);
      && events != [] && events[1..] == Run(Values(limit, fromClient), tail).0
      && rest == Run(Values(limit, fromClient), tail).1
      && events[0].Command? && (events[0].dir == Request <==> fromClient) && events[0].args == Texts(elems)
      && ((forall i :: 0 <= i < |elems| ==> 32 !in Text(elems[i])) ==>
            exists whole :: Split(whole, 32) == Texts(elems)
              && events[0].statement == if 0 < limit < |whole| then whole[..limit] else whole)
  {
    hide Run, Encode, Text, Joined;
    var v := Array(elems);
    OneValueRuns(v, tail, limit, fromClient);
    TextsAt(elems);
    var args := Texts(elems);
    if forall i :: 0 <= i < |elems| ==> 32 !in Text(elems[i]) {
      SplitJoined(args, 32);
      assert Split(Joined(args, 32), 32) == args;
    }
  }

  lemma {:induction false} TextsAt(vs: seq<Value>)
    ensures |Texts(vs)| == |vs| && forall i :: 0 <= i < |vs| ==> Texts(vs)[i] == Text(vs[i])
  {
    hide Text;
    if vs != [] { TextsAt(vs[1..]); }
  }

  /** An error line gives its text; every other value, the empty array among them, gives no event. */
  lemma OtherValuesOnTheWire(v: Value, tail: bytes, limit: int, fromClient: bool)
    requires Legal(v) && !HasNullArray(v) && (v.Array? ==> v.elems == [])
    ensures var f := Values(limit, fromClient);
      Run(f, Encode(v) + tail)
      == ((if v.Error? then [ErrorReply(v.text)] else []) + Run(f, tail).0, Run(f, tail).1)
  {
    hide Run, Encode;
    OneValueRuns(v, tail, limit, fromClient);
  }

  /** A declared count is never believed beyond the data: every element takes at least two bytes. */
  lemma CountBounded(d: bytes, limit: int, fromClient: bool)
    requires d != [] && d[0] == ARRAY && CrlfIndex(d) >= 0 && Atoi(d[1..CrlfIndex(d)]).Some?
    ensures 2 * Atoi(d[1..CrlfIndex(d)]).value > |d| - CrlfIndex(d) - 2 ==> Read(d).Failed?
  {}
}
