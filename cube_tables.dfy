/** The three move tables of cube.js, entry by entry. Dafny's solver reads a
    `match` on the index far more cheaply than a 54-element sequence display,
    so each table is a function of the index; `CubeModel.Lookup` turns it into the
    sequence the source stores. */
module CubeTables {

  /** `Cube.moves["U"]`: the facelet whose colour position i receives. */
  function UEntry(i: int): int
    requires 0 <= i < 54
  {
    match i
    case 0 => 6  case 1 => 3  case 2 => 0  case 3 => 7  case 4 => 4  case 5 => 1  case 6 => 8  case 7 => 5  case 8 => 2
    case 9 => 18  case 10 => 19  case 11 => 20  case 12 => 12  case 13 => 13  case 14 => 14  case 15 => 15  case 16 => 16  case 17 => 17
    case 18 => 27  case 19 => 28  case 20 => 29  case 21 => 21  case 22 => 22  case 23 => 23  case 24 => 24  case 25 => 25  case 26 => 26
    case 27 => 36  case 28 => 37  case 29 => 38  case 30 => 30  case 31 => 31  case 32 => 32  case 33 => 33  case 34 => 34  case 35 => 35
    case 36 => 9  case 37 => 10  case 38 => 11  case 39 => 39  case 40 => 40  case 41 => 41  case 42 => 42  case 43 => 43  case 44 => 44
    case 45 => 45  case 46 => 46  case 47 => 47  case 48 => 48  case 49 => 49  case 50 => 50  case 51 => 51  case 52 => 52  case _ => 53
  }

  /** The inverse of UEntry, used only as a witness that the table is a permutation. */
  ghost function UWitness(v: int): int
    requires 0 <= v < 54
  {
    match v
    case 0 => 2  case 1 => 5  case 2 => 8  case 3 => 1  case 4 => 4  case 5 => 7  case 6 => 0  case 7 => 3  case 8 => 6
    case 9 => 36  case 10 => 37  case 11 => 38  case 12 => 12  case 13 => 13  case 14 => 14  case 15 => 15  case 16 => 16  case 17 => 17
    case 18 => 9  case 19 => 10  case 20 => 11  case 21 => 21  case 22 => 22  case 23 => 23  case 24 => 24  case 25 => 25  case 26 => 26
    case 27 => 18  case 28 => 19  case 29 => 20  case 30 => 30  case 31 => 31  case 32 => 32  case 33 => 33  case 34 => 34  case 35 => 35
    case 36 => 27  case 37 => 28  case 38 => 29  case 39 => 39  case 40 => 40  case 41 => 41  case 42 => 42  case 43 => 43  case 44 => 44
    case 45 => 45  case 46 => 46  case 47 => 47  case 48 => 48  case 49 => 49  case 50 => 50  case 51 => 51  case 52 => 52  case _ => 53
  }

  /** `Cube.moves["x"]`: the facelet whose colour position i receives. */
  function XEntry(i: int): int
    requires 0 <= i < 54
  {
    match i
    case 0 => 9  case 1 => 10  case 2 => 11  case 3 => 12  case 4 => 13  case 5 => 14  case 6 => 15  case 7 => 16  case 8 => 17
    case 9 => 45  case 10 => 46  case 11 => 47  case 12 => 48  case 13 => 49  case 14 => 50  case 15 => 51  case 16 => 52  case 17 => 53
    case 18 => 24  case 19 => 21  case 20 => 18  case 21 => 25  case 22 => 22  case 23 => 19  case 24 => 26  case 25 => 23  case 26 => 20
    case 27 => 0  case 28 => 1  case 29 => 2  case 30 => 3  case 31 => 4  case 32 => 5  case 33 => 6  case 34 => 7  case 35 => 8
    case 36 => 38  case 37 => 41  case 38 => 44  case 39 => 37  case 40 => 40  case 41 => 43  case 42 => 36  case 43 => 39  case 44 => 42
    case 45 => 35  case 46 => 34  case 47 => 33  case 48 => 32  case 49 => 31  case 50 => 30  case 51 => 29  case 52 => 28  case _ => 27
  }

  /** The inverse of XEntry, used only as a witness that the table is a permutation. */
  ghost function XWitness(v: int): int
    requires 0 <= v < 54
  {
    match v
    case 0 => 27  case 1 => 28  case 2 => 29  case 3 => 30  case 4 => 31  case 5 => 32  case 6 => 33  case 7 => 34  case 8 => 35
    case 9 => 0  case 10 => 1  case 11 => 2  case 12 => 3  case 13 => 4  case 14 => 5  case 15 => 6  case 16 => 7  case 17 => 8
    case 18 => 20  case 19 => 23  case 20 => 26  case 21 => 19  case 22 => 22  case 23 => 25  case 24 => 18  case 25 => 21  case 26 => 24
    case 27 => 53  case 28 => 52  case 29 => 51  case 30 => 50  case 31 => 49  case 32 => 48  case 33 => 47  case 34 => 46  case 35 => 45
    case 36 => 42  case 37 => 39  case 38 => 36  case 39 => 43  case 40 => 40  case 41 => 37  case 42 => 44  case 43 => 41  case 44 => 38
    case 45 => 9  case 46 => 10  case 47 => 11  case 48 => 12  case 49 => 13  case 50 => 14  case 51 => 15  case 52 => 16  case _ => 17
  }

  /** `Cube.moves["y"]`: the facelet whose colour position i receives. */
  function YEntry(i: int): int
    requires 0 <= i < 54
  {
    match i
    case 0 => 6  case 1 => 3  case 2 => 0  case 3 => 7  case 4 => 4  case 5 => 1  case 6 => 8  case 7 => 5  case 8 => 2
    case 9 => 18  case 10 => 19  case 11 => 20  case 12 => 21  case 13 => 22  case 14 => 23  case 15 => 24  case 16 => 25  case 17 => 26
    case 18 => 27  case 19 => 28  case 20 => 29  case 21 => 30  case 22 => 31  case 23 => 32  case 24 => 33  case 25 => 34  case 26 => 35
    case 27 => 36  case 28 => 37  case 29 => 38  case 30 => 39  case 31 => 40  case 32 => 41  case 33 => 42  case 34 => 43  case 35 => 44
    case 36 => 9  case 37 => 10  case 38 => 11  case 39 => 12  case 40 => 13  case 41 => 14  case 42 => 15  case 43 => 16  case 44 => 17
    case 45 => 47  case 46 => 50  case 47 => 53  case 48 => 46  case 49 => 49  case 50 => 52  case 51 => 45  case 52 => 48  case _ => 51
  }

  /** The inverse of YEntry, used only as a witness that the table is a permutation. */
  ghost function YWitness(v: int): int
    requires 0 <= v < 54
  {
    match v
    case 0 => 2  case 1 => 5  case 2 => 8  case 3 => 1  case 4 => 4  case 5 => 7  case 6 => 0  case 7 => 3  case 8 => 6
    case 9 => 36  case 10 => 37  case 11 => 38  case 12 => 39  case 13 => 40  case 14 => 41  case 15 => 42  case 16 => 43  case 17 => 44
    case 18 => 9  case 19 => 10  case 20 => 11  case 21 => 12  case 22 => 13  case 23 => 14  case 24 => 15  case 25 => 16  case 26 => 17
    case 27 => 18  case 28 => 19  case 29 => 20  case 30 => 21  case 31 => 22  case 32 => 23  case 33 => 24  case 34 => 25  case 35 => 26
    case 36 => 27  case 37 => 28  case 38 => 29  case 39 => 30  case 40 => 31  case 41 => 32  case 42 => 33  case 43 => 34  case 44 => 35
    case 45 => 51  case 46 => 48  case 47 => 45  case 48 => 52  case 49 => 49  case 50 => 46  case 51 => 53  case 52 => 50  case _ => 47
  }
}
