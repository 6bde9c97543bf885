/** The transform as the tool holds it: a `std::vector<std::vector<double>>`
    read row by row from the transform file, with every double taken as a real. */
module TransformMatrix {

  /** Rows of numbers, row-major; nothing forces the rows to be equally long. */
  type Matrix = seq<seq<real>>

  /** The entries `transform_point` reads: rows 0..2, columns 0..3. */
  predicate Readable(t: Matrix)
  {
    |t| >= 3 && |t[0]| >= 4 && |t[1]| >= 4 && |t[2]| >= 4
  }

  /** Four rows of four numbers each, the layout the transform file is meant to have. */
  predicate IsFourByFour(t: Matrix)
  {
    |t| == 4 && forall i :: 0 <= i < 4 ==> |t[i]| == 4
  }

  /** The 4x4 homogeneous identity. */
  function Identity(): (t: Matrix)
    ensures IsFourByFour(t)
    ensures forall i, j :: 0 <= i < 4 && 0 <= j < 4 ==> t[i][j] == if i == j then 1.0 else 0.0
  {
    [[1.0, 0.0, 0.0, 0.0],
     [0.0, 1.0, 0.0, 0.0],
     [0.0, 0.0, 1.0, 0.0],
     [0.0, 0.0, 0.0, 1.0]]
  }

  /** A well-formed transform file gives a matrix `transform_point` can read. */
  lemma FourByFourIsReadable(t: Matrix)
    requires IsFourByFour(t)
    ensures Readable(t)
  {
    assert |t[0]| == 4 && |t[1]| == 4 && |t[2]| == 4;
  }
}
