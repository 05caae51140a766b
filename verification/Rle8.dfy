/** The RLE8 bitmaps of the boot logo: the encoder, and a decoder for all of BI_RLE8
    ([MS-WMF] section 2.1.1.7). */
module Rle8 {
  import opened Basics
  import opened Words

  type Row = seq<Byte>

  predicate Rectangular(image: seq<Row>, width: nat) { forall y | 0 <= y < |image| :: |image[y]| == width }

  // ---------- The encoder ----------

  /** How far the run at `x` reaches, `run` of its pixels already counted. */
  function RunFrom(row: Row, x: nat, run: nat): (r: nat)
    requires x < |row| && 1 <= run <= 255 && x + run <= |row|
    ensures run <= r <= 255 && x + r <= |row|
    decreases |row| - run
  {
    if x + run < |row| && row[x + run] == row[x] && run < 255 then RunFrom(row, x, run + 1) else run
  }

  function RunAt(row: Row, x: nat): (r: nat)
    requires x < |row|
    ensures 1 <= r <= 255 && x + r <= |row|
  {
    RunFrom(row, x, 1)
  }

  function EncodeRow(row: Row, x: nat): seq<Byte>
    decreases |row| - x
  {
    if x >= |row| then [] else [RunAt(row, x), row[x]] + EncodeRow(row, x + RunAt(row, x))
  }

  /** The rows below `y`, the lowest first, each with its end-of-line mark. */
  function EncodeRows(image: seq<Row>, y: nat): seq<Byte>
    requires y <= |image|
  {
    if y == 0 then [] else EncodeRow(image[y - 1], 0) + [0, 0] + EncodeRows(image, y - 1)
  }

  function Encode(image: seq<Row>): seq<Byte> { EncodeRows(image, |image|) + [0, 1] }

  // ---------- The decoder ----------

  function Repeat(n: nat, v: Byte): (s: seq<Byte>)
    ensures |s| == n && forall k | 0 <= k < n :: s[k] == v
  {
    seq(n, k => v)
  }

  /** What is drawn so far, the bottom row first, and where drawing stands. */
  datatype Pen = Pen(rows: seq<Row>, x: nat, y: nat) {
    /** `s` drawn to the right of the pen, if the row has room for it. */
    function Draw(s: seq<Byte>): Option<Pen> {
      if y < |rows| && x + |s| <= |rows[y]|
      then Some(Pen(rows[y := rows[y][..x] + s + rows[y][x + |s|..]], x + |s|, y))
      else None
    }

    function NextLine(): Pen { Pen(rows, 0, y + 1) }

    function Move(dx: nat, dy: nat): Pen { Pen(rows, x + dx, y + dy) }
  }

  function DecodeAfter(d: seq<Byte>, p: nat, pen: Option<Pen>): Option<(seq<Row>, nat)>
    requires p <= |d|
    decreases |d| - p, 1
  {
    if pen.None? then None else DecodeFrom(d, p, pen.value)
  }

  /** Runs, literal stretches padded to an even length, moves, line ends, and the end mark: the
      picture and where its code ends. */
  function DecodeFrom(d: seq<Byte>, p: nat, pen: Pen): Option<(seq<Row>, nat)>
    requires p <= |d|
    decreases |d| - p, 0
  {
    if p + 2 > |d| then None
    else
      var n, v := d[p], d[p + 1];
      if n > 0 then DecodeAfter(d, p + 2, pen.Draw(Repeat(n, v)))
      else if v == 0 then DecodeFrom(d, p + 2, pen.NextLine())
      else if v == 1 then Some((pen.rows, p + 2))
      else if v == 2 then (if p + 4 > |d| then None else DecodeFrom(d, p + 4, pen.Move(d[p + 2], d[p + 3])))
      else if p + 2 + v + v % 2 > |d| then None
      else DecodeAfter(d, p + 2 + v + v % 2, pen.Draw(d[p + 2..p + 2 + v]))
  }

  function Blank(width: nat, height: nat): seq<Row> { seq(height, y => Repeat(width, 0)) }

  function Decode(d: seq<Byte>, width: nat, height: nat): Option<(seq<Row>, nat)> {
    DecodeFrom(d, 0, Pen(Blank(width, height), 0, 0))
  }

  // ---------- Runs ----------

  lemma {:induction false} RunIsOneValue(row: Row, x: nat, run: nat)
    requires x < |row| && 1 <= run <= 255 && x + run <= |row|
    requires forall k | x <= k < x + run :: row[k] == row[x]
    ensures var r := RunFrom(row, x, run);
            && (forall k | x <= k < x + r :: row[k] == row[x])
            && (r == 255 || x + r == |row| || row[x + r] != row[x])
    decreases |row| - run
  {
    if x + run < |row| && row[x + run] == row[x] && run < 255 { RunIsOneValue(row, x, run + 1); }
  }

  /** A run of the picture of length and value. */
  type Run = (nat, Byte)

  predicate AreRuns(rs: seq<Run>) { forall k | 0 <= k < |rs| :: 1 <= rs[k].0 <= 255 }

  /** The runs, laid side by side from `x`, are the rest of the row. */
  predicate Spells(rs: seq<Run>, row: Row, x: nat) {
    if rs == [] then x == |row|
    else
      && x + rs[0].0 <= |row|
      && (forall k | x <= k < x + rs[0].0 :: row[k] == rs[0].1)
      && Spells(rs[1..], row, x + rs[0].0)
  }

  function Total(rs: seq<Run>): nat { if rs == [] then 0 else rs[0].0 + Total(rs[1..]) }

  function Bytes(rs: seq<Run>): seq<Byte>
    requires AreRuns(rs)
  {
    if rs == [] then [] else [rs[0].0, rs[0].1] + Bytes(rs[1..])
  }

  function Runs(row: Row, x: nat): (rs: seq<Run>)
    ensures AreRuns(rs)
    decreases |row| - x
  {
    if x >= |row| then [] else [(RunAt(row, x), row[x])] + Runs(row, x + RunAt(row, x))
  }

  /** A row's code is pairs whose first byte is 1 to 255, so none reads as an escape; the runs
      add up to the width and spell the row. */
  lemma {:induction false} RowIsRuns(row: Row, x: nat)
    requires x <= |row|
    ensures var rs := Runs(row, x);
            && AreRuns(rs) && EncodeRow(row, x) == Bytes(rs)
            && Total(rs) == |row| - x && Spells(rs, row, x)
    decreases |row| - x
  {
    if x < |row| {
      RunIsOneValue(row, x, 1);
      RowIsRuns(row, x + RunAt(row, x));
      assert Runs(row, x)[1..] == Runs(row, x + RunAt(row, x));
    }
  }

  /** The later in the row, the fewer runs remain. */
  lemma {:induction false} FewerRunsLater(row: Row, x: nat, later: nat)
    requires x <= later <= |row|
    ensures |Runs(row, later)| <= |Runs(row, x)|
    decreases |row| - x
  {
    if x < later {
      var r := RunAt(row, x);
      if x + r <= later {
        FewerRunsLater(row, x + r, later);
      } else {
        RunReachesAsFar(row, x, later);
        FewerRunsLater(row, x + r, later + RunAt(row, later));
      }
    }
  }

  lemma RunReachesAsFar(row: Row, x: nat, later: nat)
    requires x <= later < |row| && later < x + RunAt(row, x)
    ensures x + RunAt(row, x) <= later + RunAt(row, later)
  {
    RunIsOneValue(row, x, 1);
    RunIsOneValue(row, later, 1);
    var r := RunAt(row, x);
    assert forall k | x <= k < x + r :: row[k] == row[x];
  }

  lemma RunsStep(row: Row, x: nat, far: nat)
    requires x < |row| && far == x + RunAt(row, x)
    ensures |Runs(row, x)| == 1 + |Runs(row, far)|
  {
  }

  /** No first run gets further than the one the encoder takes. */
  lemma OneMoreRun(row: Row, x: nat, next: nat, far: nat)
    requires x < |row| && x <= next <= far == x + RunAt(row, x)
    ensures |Runs(row, x)| <= 1 + |Runs(row, next)|
  {
    RunsStep(row, x, far);
    FewerRunsLater(row, next, far);
  }

  /** No other runs of 1 to 255 pixels spell the row in fewer pairs. */
  lemma {:induction false} NoFewerRuns(row: Row, x: nat, rs: seq<Run>)
    requires x <= |row| && AreRuns(rs) && Spells(rs, row, x)
    ensures |Runs(row, x)| <= |rs|
    decreases |rs|
  {
    if x < |row| {
      FirstRunFits(row, x, rs);
      var next, rest := x + rs[0].0, rs[1..];
      NoFewerRuns(row, next, rest);
      OneMoreRun(row, x, next, x + RunAt(row, x));
    }
  }

  lemma FirstRunFits(row: Row, x: nat, rs: seq<Run>)
    requires x < |row| && AreRuns(rs) && Spells(rs, row, x)
    ensures rs != [] && rs[0].0 <= RunAt(row, x) && AreRuns(rs[1..]) && Spells(rs[1..], row, x + rs[0].0)
  {
    RunIsOneValue(row, x, 1);
    assert row[x] == rs[0].1;
  }

  // ---------- The round trip ----------

  lemma Pair(d: seq<Byte>, p: nat, a: Byte, b: Byte)
    requires Holds(d, p, [a, b])
    ensures p + 2 <= |d| && d[p] == a && d[p + 1] == b
  {
    assert d[p + 0] == [a, b][0] && d[p + 1] == [a, b][1];
  }

  /** A row drawn up to `x`. */
  function Upto(row: Row, x: nat): (s: Row)
    requires x <= |row|
    ensures |s| == |row|
  {
    row[..x] + Repeat(|row| - x, 0)
  }

  lemma DrawRun(pen: Pen, row: Row, n: nat, v: Byte)
    requires pen.y < |pen.rows| && pen.x + n <= |row| && pen.rows[pen.y] == Upto(row, pen.x)
    requires forall k | pen.x <= k < pen.x + n :: row[k] == v
    ensures pen.Draw(Repeat(n, v)) == Some(Pen(pen.rows[pen.y := Upto(row, pen.x + n)], pen.x + n, pen.y))
  {
    var was := pen.rows[pen.y];
    assert was[..pen.x] + Repeat(n, v) + was[pen.x + n..] == Upto(row, pen.x + n);
  }

  /** Decoding a row's code draws the rest of the row. */
  lemma {:induction false} RowDecodes(d: seq<Byte>, p: nat, row: Row, pen: Pen)
    requires Holds(d, p, EncodeRow(row, pen.x))
    requires pen.y < |pen.rows| && pen.x <= |row| && pen.rows[pen.y] == Upto(row, pen.x)
    ensures DecodeFrom(d, p, pen) == DecodeFrom(d, p + |EncodeRow(row, pen.x)|, Pen(pen.rows[pen.y := row], |row|, pen.y))
    decreases |row| - pen.x
  {
    if pen.x == |row| {
      assert Upto(row, pen.x) == row;
      assert pen.rows[pen.y := row] == pen.rows;
    } else {
      var r, v := RunAt(row, pen.x), row[pen.x];
      var next := Pen(pen.rows[pen.y := Upto(row, pen.x + r)], pen.x + r, pen.y);
      HoldsSplit(d, p, [r, v], EncodeRow(row, pen.x + r));
      Pair(d, p, r, v);
      RunIsOneValue(row, pen.x, 1);
      DrawRun(pen, row, r, v);
      assert DecodeFrom(d, p, pen) == DecodeFrom(d, p + 2, next);
      RowDecodes(d, p + 2, row, next);
      assert next.rows[pen.y := row] == pen.rows[pen.y := row];
    }
  }

  /** The picture, bottom row first, with the `y` upper rows still blank. */
  function Drawn(image: seq<Row>, width: nat, y: nat): (rows: seq<Row>)
    requires y <= |image|
    ensures |rows| == |image|
  {
    seq(|image|, j requires 0 <= j < |image| => if j < |image| - y then image[|image| - 1 - j] else Repeat(width, 0))
  }

  function BottomUp(image: seq<Row>): (rows: seq<Row>)
    ensures |rows| == |image|
  {
    seq(|image|, j requires 0 <= j < |image| => image[|image| - 1 - j])
  }

  lemma Regroup(a: seq<Byte>, b: seq<Byte>, c: seq<Byte>, d: seq<Byte>)
    ensures a + b + c + d == a + (b + (c + d))
  {
  }

  lemma DrawnNext(image: seq<Row>, width: nat, y: nat)
    requires 0 < y <= |image|
    ensures Drawn(image, width, y)[|image| - y := image[y - 1]] == Drawn(image, width, y - 1)
  {
  }

  /** Decoding a row and its end-of-line mark draws the row and moves up a line. */
  lemma LineDecodes(d: seq<Byte>, p: nat, image: seq<Row>, width: nat, y: nat, rest: seq<Byte>)
    requires Rectangular(image, width) && 0 < y <= |image|
    requires Holds(d, p, EncodeRow(image[y - 1], 0) + ([0, 0] + rest))
    ensures var next := p + |EncodeRow(image[y - 1], 0)| + 2;
            && Holds(d, next, rest)
            && DecodeFrom(d, p, Pen(Drawn(image, width, y), 0, |image| - y)) ==
                 DecodeFrom(d, next, Pen(Drawn(image, width, y - 1), 0, |image| - (y - 1)))
  {
    var row, code := image[y - 1], EncodeRow(image[y - 1], 0);
    HoldsSplit(d, p, code, [0, 0] + rest);
    HoldsSplit(d, p + |code|, [0, 0], rest);
    Pair(d, p + |code|, 0, 0);
    assert Upto(row, 0) == Repeat(width, 0);
    RowDecodes(d, p, row, Pen(Drawn(image, width, y), 0, |image| - y));
    DrawnNext(image, width, y);
  }

  lemma {:induction false} RowsDecode(d: seq<Byte>, p: nat, image: seq<Row>, width: nat, y: nat)
    requires Rectangular(image, width) && y <= |image|
    requires Holds(d, p, EncodeRows(image, y) + [0, 1])
    ensures DecodeFrom(d, p, Pen(Drawn(image, width, y), 0, |image| - y)) ==
              Some((BottomUp(image), p + |EncodeRows(image, y)| + 2))
    decreases y
  {
    if y == 0 {
      assert [] + [0, 1] == [0, 1];
      Pair(d, p, 0, 1);
      assert Drawn(image, width, 0) == BottomUp(image);
    } else {
      hide DecodeFrom, EncodeRow, Drawn, BottomUp;
      var code, rest := EncodeRow(image[y - 1], 0), EncodeRows(image, y - 1);
      Regroup(code, [0, 0], rest, [0, 1]);
      LineDecodes(d, p, image, width, y, rest + [0, 1]);
      RowsDecode(d, p + |code| + 2, image, width, y - 1);
    }
  }

  /** Whatever the width, the height and the pixels: decoding the code gives the picture back,
      bottom row first, and uses all of the code. */
  lemma RoundTrip(image: seq<Row>, width: nat)
    requires Rectangular(image, width)
    ensures Decode(Encode(image), width, |image|) == Some((BottomUp(image), |Encode(image)|))
  {
    assert Drawn(image, width, |image|) == Blank(width, |image|);
    RowsDecode(Encode(image), 0, image, width, |image|);
  }

  // ---------- The program ----------

  lemma Append(out: seq<Byte>, a: seq<Byte>, b: seq<Byte>, rest: seq<Byte>)
    ensures out + (a + b + rest) == out + a + b + rest
    ensures a == [] ==> out + (b + rest) == out + b + rest
  {
    if a == [] { assert out + (b + rest) == out + b + rest; }
  }

  method Rle8(image: seq<Row>, width: nat, height: nat) returns (out: seq<Byte>)
    requires |image| == height && Rectangular(image, width)
    ensures out == Encode(image)
  {
    out := [];
    var y := height - 1;
    while y >= 0
      invariant -1 <= y < height
      invariant out + EncodeRows(image, y + 1) == EncodeRows(image, height)
    {
      var code := Rle8Row(image[y]);
      Append(out, code, [0, 0], EncodeRows(image, y));
      out := out + code + [0, 0];
      y := y - 1;
    }
    assert out + EncodeRows(image, 0) == out;
    out := out + [0, 1];
  }

  method Rle8Row(row: Row) returns (out: seq<Byte>)
    ensures out == EncodeRow(row, 0)
  {
    out := [];
    var x := 0;
    while x < |row|
      invariant 0 <= x <= |row|
      invariant out + EncodeRow(row, x) == EncodeRow(row, 0)
    {
      var value, run := row[x], 1;
      while x + run < |row| && row[x + run] == value && run < 255
        invariant 1 <= run <= 255 && x + run <= |row|
        invariant RunFrom(row, x, run) == RunAt(row, x)
      {
        run := run + 1;
      }
      Append(out, [], [run, value], EncodeRow(row, x + run));
      out := out + [run, value];
      x := x + run;
    }
    assert out + [] == out;
  }
}
