/** The text codecs of the network file format: vectors as comma-separated
    tokens, matrices as '#'-separated rows, and mask rows as the decimal value
    of a bit string.  Elements are abstract tokens (the text of a number);
    the float conversion of a token is not modelled. */
module Codecs {

  /** Python's `s[:-1]`: drop the last character, if any. */
  function DropLast(s: string): string
  {
    if |s| == 0 then s else s[..|s| - 1]
  }

  /** What `for elem in v: s += '%s,' % elem` accumulates: every token
      followed by the separator. */
  function Terminated(v: seq<string>, sep: char): string
  {
    if |v| == 0 then "" else v[0] + [sep] + Terminated(v[1..], sep)
  }

  /** Tokens with one separator between neighbours. */
  function Join(v: seq<string>, sep: char): string
  {
    if |v| == 0 then "" else if |v| == 1 then v[0] else v[0] + [sep] + Join(v[1..], sep)
  }

  /** Python's `str.split(sep)`: the pieces between separators, never fewer than one. */
  function Split(s: string, sep: char): (r: seq<string>)
    ensures |r| >= 1
  {
    if |s| == 0 then [""]
    else if s[0] == sep then [""] + Split(s[1..], sep)
    else
      var rest := Split(s[1..], sep);
      [[s[0]] + rest[0]] + rest[1..]
  }

  /** Every token is non-empty and free of both separators of the format. */
  predicate Tokens(v: seq<string>)
  {
    forall i :: 0 <= i < |v| ==> |v[i]| > 0 && ',' !in v[i] && '#' !in v[i]
  }

  // ---------------------------------------------------------------- vectors

  /** vector_to_string: the loop-built text with its trailing comma dropped
      is the tokens joined by commas. */
  function VectorToString(v: seq<string>): (r: string)
    ensures r == Join(v, ',')
  {
    DropLastTerminated(v, ',');
    DropLast(Terminated(v, ','))
  }

  /** string_to_vector: the comma-free pieces of the text, none for the
      empty text; joining them with commas restores the text. */
  function StringToVector(s: string): (r: seq<string>)
    ensures |r| == 0 <==> s == ""
    ensures Join(r, ',') == s
    ensures forall i :: 0 <= i < |r| ==> ',' !in r[i]
  {
    var pieces := Split(s, ',');
    JoinSplit(s, ',');
    SplitPiecesFree(s, ',');
    if pieces == [""] then [] else pieces
  }

  /** No piece of a split holds the separator. */
  lemma {:induction false} SplitPiecesFree(s: string, sep: char)
    ensures forall i :: 0 <= i < |Split(s, sep)| ==> sep !in Split(s, sep)[i]
  {
    if |s| > 0 {
      SplitPiecesFree(s[1..], sep);
      var rest := Split(s[1..], sep);
      if s[0] != sep {
        assert Split(s, sep)[1..] == rest[1..];
        assert sep !in rest[0];
      }
    }
  }

  lemma {:induction false} TerminatedNonEmpty(v: seq<string>, sep: char)
    requires |v| > 0
    ensures |Terminated(v, sep)| > 0 && Terminated(v, sep)[|Terminated(v, sep)| - 1] == sep
  {
    if |v| > 1 {
      TerminatedNonEmpty(v[1..], sep);
    }
  }

  /** Dropping the trailing separator of the loop-built string leaves the join. */
  lemma {:induction false} DropLastTerminated(v: seq<string>, sep: char)
    ensures DropLast(Terminated(v, sep)) == Join(v, sep)
  {
    if |v| == 0 {
    } else if |v| == 1 {
      assert Terminated(v[1..], sep) == "";
    } else {
      TerminatedNonEmpty(v[1..], sep);
      DropLastTerminated(v[1..], sep);
      var t := Terminated(v[1..], sep);
      assert DropLast(v[0] + [sep] + t) == v[0] + [sep] + DropLast(t);
    }
  }

  lemma {:induction false} SplitFree(a: string, sep: char)
    requires sep !in a
    ensures Split(a, sep) == [a]
  {
    if |a| > 0 {
      SplitFree(a[1..], sep);
      assert [a[0]] + a[1..] == a;
    }
  }

  lemma {:induction false} SplitCons(a: string, r: string, sep: char)
    requires sep !in a
    ensures Split(a + [sep] + r, sep) == [a] + Split(r, sep)
  {
    if |a| == 0 {
      assert a + [sep] + r == [sep] + r;
      assert ([sep] + r)[1..] == r;
    } else {
      var s := a + [sep] + r;
      assert s[0] == a[0] && s[1..] == a[1..] + [sep] + r;
      SplitCons(a[1..], r, sep);
      assert [a[0]] + a[1..] == a;
    }
  }

  /** Splitting a join of separator-free tokens gives the tokens back. */
  lemma {:induction false} SplitJoin(v: seq<string>, sep: char)
    requires |v| > 0
    requires forall i :: 0 <= i < |v| ==> sep !in v[i]
    ensures Split(Join(v, sep), sep) == v
  {
    if |v| == 1 {
      SplitFree(v[0], sep);
    } else {
      SplitJoin(v[1..], sep);
      SplitCons(v[0], Join(v[1..], sep), sep);
      assert [v[0]] + v[1..] == v;
    }
  }

  /** Joining the pieces of a split restores the string. */
  lemma {:induction false} JoinSplit(s: string, sep: char)
    ensures Join(Split(s, sep), sep) == s
  {
    if |s| > 0 {
      JoinSplit(s[1..], sep);
      var rest := Split(s[1..], sep);
      if s[0] == sep {
        assert Split(s, sep) == [""] + rest;
        assert Split(s, sep)[1..] == rest;
        assert s == [sep] + s[1..];
      } else {
        var p := Split(s, sep);
        assert p == [[s[0]] + rest[0]] + rest[1..];
        if |rest| == 1 {
          assert s == [s[0]] + s[1..];
        } else {
          assert p[1..] == rest[1..];
          assert Join(rest, sep) == rest[0] + [sep] + Join(rest[1..], sep);
          assert s == [s[0]] + s[1..];
        }
      }
    }
  }

  /** Decoding an encoded vector gives it back; the single empty token is the
      one vector of comma-free tokens that does not survive. */
  lemma {:induction false} VectorRoundTrip(v: seq<string>)
    requires forall i :: 0 <= i < |v| ==> ',' !in v[i]
    requires v != [""]
    ensures StringToVector(VectorToString(v)) == v
  {
    if |v| > 0 {
      SplitJoin(v, ',');
    }
  }

  lemma EmptyTokenVanishes()
    ensures StringToVector(VectorToString([""])) == []
  {
    assert Terminated([""], ',') == ",";
  }

  // ---------------------------------------------------------------- matrices

  /** The row loop of matrix_to_string: the row's tokens are appended, then
      the last character of the whole string is replaced by '#'. */
  function MatrixLoop(s: string, m: seq<seq<string>>): string
    decreases |m|
  {
    if |m| == 0 then s else MatrixLoop(DropLast(s + Terminated(m[0], ',')) + "#", m[1..])
  }

  /** matrix_to_string: with no empty row, the rows joined by '#' (the
      intended encoding); the empty matrix gives the empty text. */
  function MatrixToString(m: seq<seq<string>>): (r: string)
    ensures (forall i :: 0 <= i < |m| ==> |m[i]| > 0) ==> r == MatrixToStringJoined(m)
    ensures |m| == 0 ==> r == ""
  {
    MatrixLoopJoined(m);
    DropLast(MatrixLoop("", m))
  }

  /** string_to_matrix: one row of comma-free tokens per '#'-separated line;
      encoding the rows the intended way restores the text. */
  function StringToMatrix(s: string): (r: seq<seq<string>>)
    ensures |r| >= 1
    ensures MatrixToStringJoined(r) == s
    ensures forall i, j :: 0 <= i < |r| && 0 <= j < |r[i]| ==> ',' !in r[i][j]
  {
    var lines := Split(s, '#');
    var r := seq(|lines|, i requires 0 <= i < |lines| => StringToVector(lines[i]));
    JoinSplit(s, '#');
    assert RowStrings(r) == lines;
    r
  }

  /** Each row encoded on its own. */
  function RowStrings(m: seq<seq<string>>): (r: seq<string>)
    ensures |r| == |m|
  {
    seq(|m|, i requires 0 <= i < |m| => VectorToString(m[i]))
  }

  /** The intended encoding: rows joined by '#'. */
  function MatrixToStringJoined(m: seq<seq<string>>): string
  {
    Join(RowStrings(m), '#')
  }

  lemma {:induction false} MatrixLoopRows(s: string, m: seq<seq<string>>)
    requires forall i :: 0 <= i < |m| ==> |m[i]| > 0
    ensures MatrixLoop(s, m) == s + Terminated(RowStrings(m), '#')
    decreases |m|
  {
    if |m| > 0 {
      TerminatedNonEmpty(m[0], ',');
      DropLastTerminated(m[0], ',');
      var t := Terminated(m[0], ',');
      assert DropLast(s + t) == s + DropLast(t);
      MatrixLoopRows(s + RowStrings(m)[0] + "#", m[1..]);
      assert RowStrings(m[1..]) == RowStrings(m)[1..];
    } else {
      assert RowStrings(m) == [];
    }
  }

  /** With no empty row, the loop-built string is the '#'-join of the rows. */
  lemma {:induction false} MatrixLoopJoined(m: seq<seq<string>>)
    ensures (forall i :: 0 <= i < |m| ==> |m[i]| > 0) ==> DropLast(MatrixLoop("", m)) == MatrixToStringJoined(m)
    ensures |m| == 0 ==> DropLast(MatrixLoop("", m)) == ""
  {
    if forall i :: 0 <= i < |m| ==> |m[i]| > 0 {
      MatrixLoopRows("", m);
      assert "" + Terminated(RowStrings(m), '#') == Terminated(RowStrings(m), '#');
      DropLastTerminated(RowStrings(m), '#');
    }
  }

  lemma {:induction false} RowStringsFree(m: seq<seq<string>>)
    requires forall i :: 0 <= i < |m| ==> Tokens(m[i])
    ensures forall i :: 0 <= i < |m| ==> '#' !in RowStrings(m)[i]
  {
    forall i | 0 <= i < |m| ensures '#' !in RowStrings(m)[i] {
      JoinFree(m[i], ',', '#');
    }
  }

  lemma {:induction false} JoinFree(v: seq<string>, sep: char, c: char)
    requires c != sep && forall i :: 0 <= i < |v| ==> c !in v[i]
    ensures c !in Join(v, sep)
  {
    if |v| > 1 {
      JoinFree(v[1..], sep, c);
    }
  }

  /** The intended matrix encoding round-trips every non-empty matrix of
      tokens, empty rows included. */
  lemma {:induction false} MatrixJoinedRoundTrip(m: seq<seq<string>>)
    requires |m| > 0
    requires forall i :: 0 <= i < |m| ==> Tokens(m[i])
    ensures StringToMatrix(MatrixToStringJoined(m)) == m
  {
    RowStringsFree(m);
    SplitJoin(RowStrings(m), '#');
    forall i | 0 <= i < |m| ensures StringToVector(RowStrings(m)[i]) == m[i] {
      assert |m[i]| == 0 || |m[i][0]| > 0;
      VectorRoundTrip(m[i]);
    }
  }

  /** matrix_to_string round-trips every non-empty matrix whose rows are non-empty. */
  lemma MatrixRoundTrip(m: seq<seq<string>>)
    requires |m| > 0
    requires forall i :: 0 <= i < |m| ==> |m[i]| > 0 && Tokens(m[i])
    ensures StringToMatrix(MatrixToString(m)) == m
  {
    MatrixJoinedRoundTrip(m);
  }

  /** As written, an empty row after a non-empty one deletes the '#' that
      ended the previous row, so the row is lost on the way back. */
  lemma {:induction false} MatrixEmptyRowLost()
    ensures MatrixToString([["1.0"], []]) == "1.0"
    ensures StringToMatrix(MatrixToString([["1.0"], []])) == [["1.0"]]
  {
    var m: seq<seq<string>> := [["1.0"], []];
    assert Terminated(["1.0"], ',') == "1.0,";
    assert MatrixLoop("", m) == MatrixLoop("1.0#", [[]]);
    assert Terminated([], ',') == "";
    assert MatrixLoop("1.0#", [[]]) == MatrixLoop("1.0#", []);
    SplitFree("1.0", '#');
    SplitFree("1.0", ',');
  }

  // ---------------------------------------------------------------- decimal numbers

  function Digit(d: nat): char
    requires d < 10
  {
    ('0' as int + d) as char
  }

  /** `str(x)` / `'%d' % x` for a natural number. */
  function Decimal(x: nat): (r: string)
    ensures |r| > 0
    decreases x
  {
    if x < 10 then [Digit(x)] else Decimal(x / 10) + [Digit(x % 10)]
  }

  /** `int(s)` for a string of digits. */
  function ParseDecimal(s: string): nat
  {
    if |s| == 0 then 0
    else
      var c := s[|s| - 1];
      ParseDecimal(s[..|s| - 1]) * 10 + (if '0' <= c <= '9' then c as int - '0' as int else 0)
  }

  lemma {:induction false} DecimalRoundTrip(x: nat)
    ensures ParseDecimal(Decimal(x)) == x
    decreases x
  {
    if x >= 10 {
      DecimalRoundTrip(x / 10);
      assert Decimal(x)[..|Decimal(x)| - 1] == Decimal(x / 10);
    }
  }

  lemma {:induction false} DecimalDigits(x: nat)
    ensures forall i :: 0 <= i < |Decimal(x)| ==> '0' <= Decimal(x)[i] <= '9'
    ensures ',' !in Decimal(x) && '#' !in Decimal(x)
    decreases x
  {
    if x >= 10 {
      DecimalDigits(x / 10);
    }
  }

  // ---------------------------------------------------------------- masks

  /** Bit j of a mask row: 0 for a hidden coordinate, 1 otherwise. */
  function MaskBits(row: seq<real>): (b: seq<nat>)
    ensures |b| == |row|
  {
    seq(|row|, j requires 0 <= j < |row| => if row[j] == 0.0 then 0 else 1)
  }

  /** `int(temp, 2)`: the value of a big-endian bit string. */
  function BitsValue(bits: seq<nat>): nat
  {
    if |bits| == 0 then 0 else BitsValue(bits[..|bits| - 1]) * 2 + bits[|bits| - 1]
  }

  predicate Binary01(bits: seq<nat>)
  {
    forall j :: 0 <= j < |bits| ==> bits[j] <= 1
  }

  predicate AnyNonZero(row: seq<real>)
  {
    exists j :: 0 <= j < |row| && row[j] != 0.0
  }

  /** The text encode_mask appends for row i: nothing for an all-zero row,
      otherwise the row index, a comma, the row's value and '#'. */
  function MaskEntry(i: nat, row: seq<real>): string
  {
    if AnyNonZero(row) then Decimal(i) + "," + Decimal(BitsValue(MaskBits(row))) + "#" else ""
  }

  function MaskLoop(masks: seq<seq<real>>): string
  {
    if |masks| == 0 then "" else MaskLoop(masks[..|masks| - 1]) + MaskEntry(|masks| - 1, masks[|masks| - 1])
  }

  /** encode_mask: read back as a matrix, the text is exactly the
      (row index, row value) table; no visible coordinate gives the empty text. */
  function EncodeMask(masks: seq<seq<real>>): (r: string)
    ensures |MaskTable(masks)| > 0 ==> StringToMatrix(r) == MaskTable(masks)
    ensures |MaskTable(masks)| == 0 ==> r == ""
  {
    MaskStringReadsBack(masks);
    DropLast(MaskLoop(masks))
  }

  /** The (row index, row value) table that encode_mask writes, one line per
      row with a visible coordinate, in row order. */
  function MaskTable(masks: seq<seq<real>>): seq<seq<string>>
  {
    if |masks| == 0 then []
    else
      var i := |masks| - 1;
      MaskTable(masks[..i]) + (if AnyNonZero(masks[i]) then [[Decimal(i), Decimal(BitsValue(MaskBits(masks[i])))]] else [])
  }

  /** Binary digits of x with no leading zero, as `bin(x)[2:]` spells them. */
  function Binary(x: nat): seq<nat>
    decreases x
  {
    if x == 0 then [] else Binary(x / 2) + [x % 2]
  }

  /** decode_mask: the digits of `bin(int(mask))[2:]`; bin(0) is '0b0'.
      They are binary digits of value x with no leading zero. */
  function DecodeMask(x: nat): (r: seq<nat>)
    ensures |r| > 0 && Binary01(r) && BitsValue(r) == x
    ensures x > 0 ==> r[0] == 1
  {
    BinaryDigits(x);
    if x == 0 then
      assert BitsValue([0]) == BitsValue([]) * 2 + 0;
      [0]
    else Binary(x)
  }

  /** The digits of Binary(x) are bits with value x, led by a 1 when x > 0. */
  lemma {:induction false} BinaryDigits(x: nat)
    ensures Binary01(Binary(x)) && BitsValue(Binary(x)) == x
    ensures x > 0 ==> |Binary(x)| > 0 && Binary(x)[0] == 1
    decreases x
  {
    if x > 0 {
      BinaryDigits(x / 2);
      var b := Binary(x);
      assert b == Binary(x / 2) + [x % 2];
      assert b[..|b| - 1] == Binary(x / 2);
    }
  }

  /** The intended decoder: exactly K binary digits, leading zeros kept. */
  function DecodeMaskRow(x: nat, K: nat): (r: seq<nat>)
    ensures |r| == K
  {
    if K == 0 then [] else DecodeMaskRow(x / 2, K - 1) + [x % 2]
  }

  lemma {:induction false} TerminatedSnoc(v: seq<string>, x: string, sep: char)
    ensures Terminated(v + [x], sep) == Terminated(v, sep) + x + [sep]
  {
    if |v| > 0 {
      assert (v + [x])[1..] == v[1..] + [x];
      TerminatedSnoc(v[1..], x, sep);
    } else {
      assert v + [x] == [x];
    }
  }

  lemma {:induction false} MaskLoopIsTable(masks: seq<seq<real>>)
    ensures MaskLoop(masks) == Terminated(RowStrings(MaskTable(masks)), '#')
  {
    if |masks| > 0 {
      var i := |masks| - 1;
      var pre := masks[..i];
      MaskLoopIsTable(pre);
      var t := MaskTable(pre);
      if AnyNonZero(masks[i]) {
        var line := [Decimal(i), Decimal(BitsValue(MaskBits(masks[i])))];
        assert MaskTable(masks) == t + [line];
        assert RowStrings(t + [line]) == RowStrings(t) + [VectorToString(line)];
        assert Join(line, ',') == Decimal(i) + "," + Decimal(BitsValue(MaskBits(masks[i])));
        TerminatedSnoc(RowStrings(t), VectorToString(line), '#');
      } else {
        assert MaskTable(masks) == t;
      }
    }
  }

  lemma {:induction false} MaskTableTokens(masks: seq<seq<real>>)
    ensures forall r :: 0 <= r < |MaskTable(masks)| ==> Tokens(MaskTable(masks)[r]) && |MaskTable(masks)[r]| == 2
  {
    if |masks| > 0 {
      var i := |masks| - 1;
      MaskTableTokens(masks[..i]);
      DecimalDigits(i);
      DecimalDigits(BitsValue(MaskBits(masks[i])));
    }
  }

  /** Reading back the loop-built mask text gives exactly the (row index,
      row value) table, whenever some row has a visible coordinate. */
  lemma MaskStringReadsBack(masks: seq<seq<real>>)
    ensures |MaskTable(masks)| > 0 ==> StringToMatrix(DropLast(MaskLoop(masks))) == MaskTable(masks)
    ensures |MaskTable(masks)| == 0 ==> DropLast(MaskLoop(masks)) == ""
  {
    var t := MaskTable(masks);
    MaskLoopIsTable(masks);
    DropLastTerminated(RowStrings(t), '#');
    if |t| > 0 {
      MaskTableTokens(masks);
      MatrixJoinedRoundTrip(t);
    }
  }

  /** A row shows up in the table iff it has a visible coordinate; its line
      names the row and the value of its bits. */
  lemma {:induction false} MaskTableRows(masks: seq<seq<real>>, i: nat)
    requires i < |masks|
    ensures AnyNonZero(masks[i]) <==> [Decimal(i), Decimal(BitsValue(MaskBits(masks[i])))] in MaskTable(masks)
  {
    var last := |masks| - 1;
    var pre := masks[..last];
    if i < last {
      MaskTableRows(pre, i);
      assert pre[i] == masks[i];
      DecimalRoundTrip(i);
      DecimalRoundTrip(last);
    } else {
      MaskTableIndexBound(pre, i);
    }
  }

  /** Lines of the table of the first k rows name rows below k. */
  lemma {:induction false} MaskTableIndexBound(masks: seq<seq<real>>, k: nat)
    requires |masks| <= k
    ensures forall r :: 0 <= r < |MaskTable(masks)| ==> |MaskTable(masks)[r]| == 2 && MaskTable(masks)[r][0] != Decimal(k)
  {
    if |masks| > 0 {
      var i := |masks| - 1;
      MaskTableIndexBound(masks[..i], k);
      DecimalRoundTrip(i);
      DecimalRoundTrip(k);
    }
  }

  lemma {:induction false} BinaryOfBits(bits: seq<nat>)
    requires |bits| > 0 && bits[0] == 1 && Binary01(bits)
    ensures BitsValue(bits) > 0 && Binary(BitsValue(bits)) == bits
  {
    var pre := bits[..|bits| - 1];
    if |bits| == 1 {
      assert BitsValue(pre) == 0;
    } else {
      BinaryOfBits(pre);
      var x := BitsValue(bits);
      assert x / 2 == BitsValue(pre) && x % 2 == bits[|bits| - 1];
    }
  }

  /** decode_mask inverts the row value when the row's first coordinate is visible. */
  lemma DecodeMaskRoundTrip(bits: seq<nat>)
    requires |bits| > 0 && bits[0] == 1 && Binary01(bits)
    ensures DecodeMask(BitsValue(bits)) == bits
  {
    BinaryOfBits(bits);
  }

  lemma {:induction false} LeadingZeroValue(bits: seq<nat>)
    ensures BitsValue([0] + bits) == BitsValue(bits)
  {
    if |bits| > 0 {
      var pre := bits[..|bits| - 1];
      assert ([0] + bits)[..|bits|] == [0] + pre;
      LeadingZeroValue(pre);
    } else {
      assert [0] + bits == [0];
    }
  }

  /** Without its leading zeros. */
  function StripLeadingZeros(bits: seq<nat>): seq<nat>
  {
    if |bits| > 0 && bits[0] == 0 then StripLeadingZeros(bits[1..]) else bits
  }

  /** decode_mask returns the row's bits without their leading zeros: a row
      whose first coordinate is hidden comes back shorter, its visible
      coordinates shifted towards the front. */
  lemma {:induction false} DecodeMaskDropsLeadingZeros(bits: seq<nat>)
    requires Binary01(bits) && exists j :: 0 <= j < |bits| && bits[j] == 1
    ensures DecodeMask(BitsValue(bits)) == StripLeadingZeros(bits)
    ensures bits[0] == 0 ==> |DecodeMask(BitsValue(bits))| < |bits|
  {
    if bits[0] == 0 {
      var j :| 0 <= j < |bits| && bits[j] == 1;
      assert bits[1..][j - 1] == 1;
      DecodeMaskDropsLeadingZeros(bits[1..]);
      LeadingZeroValue(bits[1..]);
      assert [0] + bits[1..] == bits;
    } else {
      DecodeMaskRoundTrip(bits);
    }
  }

  /** The smallest row that shows the defect: [0, 1] decodes as [1]. */
  lemma DecodeMaskShiftExample()
    ensures BitsValue([0, 1]) == 1 && DecodeMask(BitsValue([0, 1])) == [1]
  {
    assert [0, 1][..1] == [0];
  }

  /** The intended decoder inverts the row value for every row of K bits. */
  lemma {:induction false} DecodeMaskRowRoundTrip(bits: seq<nat>)
    requires Binary01(bits)
    ensures DecodeMaskRow(BitsValue(bits), |bits|) == bits
  {
    if |bits| > 0 {
      var pre := bits[..|bits| - 1];
      DecodeMaskRowRoundTrip(pre);
      var x := BitsValue(bits);
      assert x / 2 == BitsValue(pre) && x % 2 == bits[|bits| - 1];
      assert pre + [bits[|bits| - 1]] == bits;
    }
  }

  /** Encoding then decoding a mask row (with the intended decoder) marks
      exactly the visible coordinates. */
  lemma MaskRowVisibility(row: seq<real>, j: nat)
    requires j < |row|
    ensures DecodeMaskRow(BitsValue(MaskBits(row)), |row|)[j] == 1 <==> row[j] != 0.0
  {
    DecodeMaskRowRoundTrip(MaskBits(row));
  }
}
