/** The point loop of `main`: load the transform, then read, transform, write
    and inventory every point in turn, and update the header once at the end.

    The LAS reader is the sequence of points it hands out, in read order; the
    writer and its inventory are the sequence of calls the loop makes on them. */
module Pipeline {
  import opened Wrappers
  import opened TransformMatrix
  import opened TransformLoader
  import opened PointTransformer

  /** A point as the reader hands it out: the coordinates the loop reads and
      sets, and every other attribute, which it carries through untouched. */
  datatype LasPoint<A> = LasPoint(x: real, y: real, z: real, attributes: A)

  /** One call the loop makes on the writer. */
  datatype Event<A> =
    | Written(point: LasPoint<A>)      // write_point
    | Inventoried(point: LasPoint<A>)  // update_inventory
    | HeaderUpdated                    // update_header, after the last point

  /** The point with its coordinates replaced by their image under `t`: each
      new coordinate is one row of `t` applied to (x, y, z, 1), and every other
      attribute is carried through. */
  function Moved<A>(t: Matrix, p: LasPoint<A>): (q: LasPoint<A>)
    requires Readable(t)
    ensures q.x == t[0][0] * p.x + t[0][1] * p.y + t[0][2] * p.z + t[0][3]
    ensures q.y == t[1][0] * p.x + t[1][1] * p.y + t[1][2] * p.z + t[1][3]
    ensures q.z == t[2][0] * p.x + t[2][1] * p.y + t[2][2] * p.z + t[2][3]
    ensures q.attributes == p.attributes
  {
    ApplyFormula(t, [p.x, p.y, p.z]);
    var image := Apply(t, [p.x, p.y, p.z]);
    p.(x := image[0], y := image[1], z := image[2])
  }

  /** The calls the writer should see for `points`: each moved point written,
      then inventoried, in read order. */
  function Calls<A>(t: Matrix, points: seq<LasPoint<A>>): (calls: seq<Event<A>>)
    requires points != [] ==> Readable(t)
    ensures |calls| == 2 * |points|
  {
    if points == [] then []
    else
      var p := Moved(t, points[|points| - 1]);
      Calls(t, points[..|points| - 1]) + [Written(p), Inventoried(p)]
  }

  /** In the calls for `points`, point k is written at position 2k and
      inventoried right after; nothing else is written or inventoried. */
  lemma {:induction false} CallsInOrder<A>(t: Matrix, points: seq<LasPoint<A>>, k: nat)
    requires points != [] ==> Readable(t)
    requires k < |points|
    ensures Calls(t, points)[2 * k] == Written(Moved(t, points[k]))
    ensures Calls(t, points)[2 * k + 1] == Inventoried(Moved(t, points[k]))
    decreases |points|
  {
    var n := |points| - 1;
    if k < n {
      assert points[..n][k] == points[k];
      CallsInOrder(t, points[..n], k);
    }
  }

  /** The `while (lasreader->read_point())` loop and the `update_header` call
      after it. It needs `t` readable only when there is a point to transform. */
  method StreamPoints<A>(t: Matrix, points: seq<LasPoint<A>>) returns (calls: seq<Event<A>>, count: int)
    requires points != [] ==> Readable(t)
    ensures count == |points|
    ensures calls == Calls(t, points) + [HeaderUpdated]
    ensures |calls| == 2 * |points| + 1 && calls[|calls| - 1] == HeaderUpdated
    ensures forall k :: 0 <= k < |points| ==>
      calls[2 * k] == Written(Moved(t, points[k])) && calls[2 * k + 1] == Inventoried(Moved(t, points[k]))
  {
    calls := [];
    count := 0;
    var i := 0;
    while i < |points|
      invariant 0 <= i <= |points|
      invariant count == i
      invariant calls == Calls(t, points[..i])
    {
      var p := points[i];
      var outpoint := TransformPoint(t, [p.x, p.y, p.z], [0.0, 0.0, 0.0]);
      p := p.(x := outpoint[0], y := outpoint[1], z := outpoint[2]);
      assert p == Moved(t, points[i]);
      assert points[..i + 1][..i] == points[..i];
      calls := calls + [Written(p), Inventoried(p)];
      count := count + 1;
      i := i + 1;
    }
    assert points[..|points|] == points;
    forall k | 0 <= k < |points|
      ensures calls[2 * k] == Written(Moved(t, points[k]))
      ensures calls[2 * k + 1] == Inventoried(Moved(t, points[k]))
    {
      CallsInOrder(t, points, k);
    }
    calls := calls + [HeaderUpdated];
  }

  /** `main` from line 234 on, as written: the result of `load_transform` is
      dropped and the vector it filled is used as the matrix whatever its
      shape. Two reads the code never guards must stay inside the vector: the
      echo, when the load succeeds, reads `cols` entries of every row; and
      `transform_point`, when there is a point, reads rows 0..2, columns 0..3. */
  method RunAsWritten<A>(scan: Scanner, lines: seq<string>, points: seq<LasPoint<A>>)
    returns (calls: seq<Event<A>>, count: int)
    requires Load(scan, lines).Some? ==> EchoInBounds(Rows(RowReader(scan), lines), Load(scan, lines).value.cols)
    requires points != [] ==> Readable(Rows(RowReader(scan), lines))
    ensures count == |points|
    ensures calls == Calls(Rows(RowReader(scan), lines), points) + [HeaderUpdated]
  {
    var ok, t, cols := LoadTransform(scan, lines, []);
    calls, count := StreamPoints(t, points);
  }

  /** The matrix `main` passes to `transform_point` need not be readable: a
      file of nothing but a 'V' line loads nothing (and `load_transform` returns
      false), and a file of one line "1 2 3" loads a single three-number row. */
  lemma UncheckedMatrixIsUnreadable()
    ensures Rows(RowReader(DigitScanner), ["V"]) == [] && !Readable(Rows(RowReader(DigitScanner), ["V"]))
    ensures Load(DigitScanner, ["V"]).None?
    ensures Load(DigitScanner, ["1 2 3"]).Some? && !Readable(Rows(RowReader(DigitScanner), ["1 2 3"]))
  {
    assert ["V"][..0] == [] && ["1 2 3"][..0] == [];
    assert IsSkipped("V") && !IsSkipped("1 2 3");
    assert |Rows(RowReader(DigitScanner), ["1 2 3"])| == 1;
  }

  /** A pure translation by (10, 20, 30) takes a point at the origin to
      (10, 20, 30): it is written and inventoried there, once. */
  lemma TranslationExample<A>(a: A)
    ensures Calls([[1.0, 0.0, 0.0, 10.0], [0.0, 1.0, 0.0, 20.0], [0.0, 0.0, 1.0, 30.0], [0.0, 0.0, 0.0, 1.0]],
                  [LasPoint(0.0, 0.0, 0.0, a)])
         == [Written(LasPoint(10.0, 20.0, 30.0, a)), Inventoried(LasPoint(10.0, 20.0, 30.0, a))]
  {
    var t := [[1.0, 0.0, 0.0, 10.0], [0.0, 1.0, 0.0, 20.0], [0.0, 0.0, 1.0, 30.0], [0.0, 0.0, 0.0, 1.0]];
    ApplyFormula(t, [0.0, 0.0, 0.0]);
    assert [LasPoint(0.0, 0.0, 0.0, a)][..0] == [];
  }

  /** The outcome of a checked run. */
  datatype Outcome<A> = Outcome(calls: seq<Event<A>>, count: int)

  /** `main` from line 234 on with the result of loading checked: a file with
      no data row, or one that is not four rows of four numbers, stops the run
      before any point is read. */
  method Run<A>(scan: Scanner, lines: seq<string>, points: seq<LasPoint<A>>)
    returns (r: Result<Outcome<A>, LoadError>)
    ensures r.Failure? <==> LoadChecked(scan, lines).Failure?
    ensures r == Failure(EmptyFile) <==> forall i :: 0 <= i < |lines| ==> IsSkipped(lines[i])
    ensures r == Failure(BadShape) <==> Load(scan, lines).Some? && !IsFourByFour(Rows(RowReader(scan), lines))
    ensures r.Success? ==> IsFourByFour(Rows(RowReader(scan), lines))
    ensures r.Success? ==> r.value.count == |points|
    ensures r.Success? ==> r.value.calls == Calls(Rows(RowReader(scan), lines), points) + [HeaderUpdated]
  {
    match LoadChecked(scan, lines)
    case Failure(e) =>
      r := Failure(e);
    case Success(t) =>
      var calls, count := StreamPoints(t, points);
      r := Success(Outcome(calls, count));
  }
}
