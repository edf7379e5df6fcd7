/** strings.Join with a one-byte separator, and the splitter that inverts it. */
module Join {
  import opened Common

  function Joined(parts: seq<bytes>, sep: byte): bytes {
    if parts == [] then []
    else if |parts| == 1 then parts[0]
    else parts[0] + [sep] + Joined(parts[1..], sep)
  }

  /** Cuts at every separator; defined without reference to `Joined`. */
  function Split(s: bytes, sep: byte): (parts: seq<bytes>)
    ensures parts != []
  {
    if s == [] then [[]]
    else if s[0] == sep then [[]] + Split(s[1..], sep)
    else var rest := Split(s[1..], sep); [[s[0]] + rest[0]] + rest[1..]
  }

  ghost predicate Free(parts: seq<bytes>, sep: byte) {
    forall i :: 0 <= i < |parts| ==> sep !in parts[i]
  }

  lemma {:induction false} SplitPiece(piece: bytes, tail: bytes, sep: byte)
    requires sep !in piece
    ensures Split(piece + [sep] + tail, sep) == [piece] + Split(tail, sep)
  {
    if piece == [] {
      assert piece + [sep] + tail == [sep] + tail;
    } else {
      assert (piece + [sep] + tail)[1..] == piece[1..] + [sep] + tail;
      assert piece == [piece[0]] + piece[1..];
      SplitPiece(piece[1..], tail, sep);
    }
  }

  lemma {:induction false} SplitWhole(piece: bytes, sep: byte)
    requires sep !in piece
    ensures Split(piece, sep) == [piece]
  {
    if piece != [] {
      assert piece == [piece[0]] + piece[1..];
      SplitWhole(piece[1..], sep);
    }
  }

  /** A non-empty list of separator-free pieces is recovered from its join. */
  lemma {:induction false} SplitJoined(parts: seq<bytes>, sep: byte)
    requires parts != [] && Free(parts, sep)
    ensures Split(Joined(parts, sep), sep) == parts
  {
    if |parts| == 1 {
      SplitWhole(parts[0], sep);
    } else {
      SplitPiece(parts[0], Joined(parts[1..], sep), sep);
      SplitJoined(parts[1..], sep);
    }
  }

  /** Joining brings in no byte but the separator and those of the pieces. */
  lemma {:induction false} JoinedBytes(parts: seq<bytes>, sep: byte, b: byte)
    requires b in Joined(parts, sep)
    ensures b == sep || exists i :: 0 <= i < |parts| && b in parts[i]
  {
    if |parts| > 1 && b != sep && b !in parts[0] {
      JoinedBytes(parts[1..], sep, b);
      var i :| 0 <= i < |parts[1..]| && b in parts[1..][i];
      assert b in parts[i + 1];
    }
  }

  lemma {:induction false} JoinedSnoc(parts: seq<bytes>, last: bytes, sep: byte)
    requires parts != []
    ensures Joined(parts + [last], sep) == Joined(parts, sep) + [sep] + last
  {
    if |parts| == 1 {
      assert (parts + [last])[1..] == [last];
    } else {
      assert (parts + [last])[1..] == parts[1..] + [last];
      JoinedSnoc(parts[1..], last, sep);
    }
  }
}
