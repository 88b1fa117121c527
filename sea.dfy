/** The ship grid (`class Sea`): a 5x5 list of WATER/SHIP codes that
    `place_ship` writes in place and `populate_board` resets between tries. */
module Board {
  import opened Grid

  /** The ship sizes `Sea()` places when called without arguments. */
  const DefaultShips: seq<nat> := [4, 3, 2]

  /** The default fleet occupies nine cells. */
  lemma DefaultTotal()
    ensures Sum(DefaultShips) == 9
  {
    assert DefaultShips[..2] == [4, 3] && [4, 3][..1] == [4] && [4][..0] == [];
  }

  predicate IsWater(g: Matrix, p: (int, int))
    requires IsSquare(g)
  {
    InBounds(p.0, p.1) && g[p.0][p.1] == WATER
  }

  /** Some orientation of a run of `size` cells from (r, c) fails `possible`. */
  ghost predicate Blocked(g: Matrix, r: int, c: int, size: nat)
    requires IsSquare(g)
  {
    !RunClear(g, Ship(r, c, size, H)) || !RunClear(g, Ship(r, c, size, V))
  }

  /** `place_ship(size)` finds no place on `g`: every WATER cell fails
      `possible` in some orientation. */
  ghost predicate Stuck(g: Matrix, size: nat)
    requires IsSquare(g)
  {
    forall r, c :: IsWater(g, (r, c)) ==> Blocked(g, r, c, size)
  }

  /** What `place_ship(size)` did to the board `g`, leaving `g'`: when
      it `placed` the ship, the run `s` of that size starts on a WATER cell,
      passes `possible` and was drawn; otherwise it found no place and the
      board is unchanged. */
  ghost predicate Tried(g: Matrix, g': Matrix, size: nat, placed: bool, s: Ship)
    requires IsSquare(g) && IsSquare(g')
  {
    if placed then s.size == size && IsWater(g, (s.row, s.col)) && RunClear(g, s) && Drawn(g, g', s)
    else g' == g && Stuck(g, size)
  }

  /** The first `|placed|` ships of one attempt, in order: ship `k` was
      tried on `boards[k]` and left `boards[k + 1]`, as `Tried` says. */
  ghost predicate Tries(ships: seq<nat>, placed: seq<bool>, boards: seq<Matrix>, runs: seq<Ship>) {
    && |placed| == |runs| <= |ships| && |boards| == |placed| + 1
    && (forall k :: 0 <= k < |boards| ==> IsSquare(boards[k]))
    && (forall k :: 0 <= k < |placed| ==> Tried(boards[k], boards[k + 1], ships[k], placed[k], runs[k]))
  }

  /** Trying the next ship, which leaves `g'`, extends `Tries`. */
  lemma TriesNext(ships: seq<nat>, placed: seq<bool>, boards: seq<Matrix>, runs: seq<Ship>,
                  g': Matrix, p: bool, s: Ship)
    requires Tries(ships, placed, boards, runs) && |placed| < |ships| && IsSquare(g')
    requires Tried(boards[|placed|], g', ships[|placed|], p, s)
    ensures Tries(ships, placed + [p], boards + [g'], runs + [s])
  {
    var placed', boards', runs' := placed + [p], boards + [g'], runs + [s];
    forall k | 0 <= k < |boards'|
      ensures IsSquare(boards'[k])
    {
      if k < |boards| {
        assert boards'[k] == boards[k];
      }
    }
    forall k | 0 <= k < |placed'|
      ensures Tried(boards'[k], boards'[k + 1], ships[k], placed'[k], runs'[k])
    {
      assert boards'[k] == boards[k];
      if k < |placed| {
        assert boards'[k + 1] == boards[k + 1] && placed'[k] == placed[k] && runs'[k] == runs[k];
      }
    }
  }

  /** One attempt of `populate_board`: the results of `place_ship` and
      the boards and runs of `Tries`. */
  datatype Attempt = Attempt(placed: seq<bool>, boards: seq<Matrix>, runs: seq<Ship>)

  /** `a` tried every ship of `ships`, starting from `start`, and some
      ship found no place. */
  ghost predicate Failed(ships: seq<nat>, start: Matrix, a: Attempt) {
    && |a.placed| == |ships| && Tries(ships, a.placed, a.boards, a.runs)
    && a.boards[0] == start && !AllTrue(a.placed)
  }

  /** The failed attempts of `populate_board(ships)` in order: the first
      on the board `start`, each later one on a board reset to all WATER. */
  ghost predicate Misses(ships: seq<nat>, start: Matrix, misses: seq<Attempt>) {
    forall i :: 0 <= i < |misses| ==> Failed(ships, if i == 0 then start else Filled(WATER), misses[i])
  }

  /** In a failed attempt some ship found no place on the board it was
      tried on. */
  lemma FailedMeansStuck(ships: seq<nat>, start: Matrix, a: Attempt) returns (k: nat)
    requires Failed(ships, start, a)
    ensures k < |ships| && !a.placed[k] && IsSquare(a.boards[k]) && Stuck(a.boards[k], ships[k])
  {
    k :| 0 <= k < |a.placed| && !a.placed[k];
    assert Tried(a.boards[k], a.boards[k + 1], ships[k], a.placed[k], a.runs[k]);
  }

  /** A further failed attempt, on the board the reset leaves, extends `Misses`. */
  lemma MissesAppend(ships: seq<nat>, start: Matrix, misses: seq<Attempt>, a: Attempt)
    requires Misses(ships, start, misses) && Failed(ships, if misses == [] then start else Filled(WATER), a)
    ensures Misses(ships, start, misses + [a])
  {
    var misses' := misses + [a];
    forall i | 0 <= i < |misses'|
      ensures Failed(ships, if i == 0 then start else Filled(WATER), misses'[i])
    {
      if i < |misses| {
        assert misses'[i] == misses[i];
      }
    }
  }

  class Sea {
    var board: Matrix
    /** The ships placed so far, in order; `board` shows exactly these. */
    ghost var fleet: seq<Ship>
    /** Whether `populate_board` placed every ship within its attempts. */
    ghost var settled: bool
    /** The attempts of `populate_board` that failed, as `Misses` says. */
    ghost var misses: seq<Attempt>

    ghost predicate Valid()
      reads this
    {
      Deployed(board, fleet) && ShipCount(board) == Sum(Sizes(fleet))
    }

    /** `Sea(ships)`: an all-WATER board on which `populate_board(ships)` runs.
        `fuel` bounds the number of attempts; `settled` records whether one
        succeeded, and `misses` why each one before it failed. */
    constructor (ships: seq<nat>, fuel: nat)
      ensures Valid() && Charted(board)
      ensures settled ==> Sizes(fleet) == ships
      ensures !settled ==> fleet == [] && board == Filled(WATER)
      ensures Misses(ships, Filled(WATER), misses) && (settled <==> |misses| < fuel) && |misses| <= fuel
    {
      board := Filled(WATER);
      fleet := [];
      settled := false;
      misses := [];
      new;
      WaterIsEmpty();
      settled, misses := PopulateBoard(ships, fuel);
    }

    /** `near_ships(row, col)`. */
    method NearShips(row: int, col: int) returns (clear: bool)
      requires IsSquare(board)
      ensures clear == Isolated(board, row, col)
    {
      if row > 4 || col > 4 {
        return false;
      }
      for i := row - 1 to row + 2
        invariant forall i', j ::
          (row - 1 <= i' < i && InBounds(i', j) && Touching(row, col, i', j) && (i' != row || j != col))
          ==> board[i'][j] != SHIP
      {
        for j := col - 1 to col + 2
          invariant forall i', j' ::
            ((row - 1 <= i' < i || (i' == i && col - 1 <= j' < j))
             && InBounds(i', j') && Touching(row, col, i', j') && (i' != row || j' != col))
            ==> board[i'][j'] != SHIP
        {
          if 0 <= i < N && 0 <= j < N && (i != row || j != col) {
            if board[i][j] == SHIP {
              return false;
            }
          }
        }
      }
      return true;
    }

    /** `possible(row, col, size, o)`. */
    method Possible(row: int, col: int, size: nat, o: Orientation) returns (ok: bool)
      requires IsSquare(board)
      ensures ok == RunClear(board, Ship(row, col, size, o))
    {
      ghost var s := Ship(row, col, size, o);
      for i := 0 to size
        invariant forall k :: 0 <= k < i ==> Isolated(board, CellRow(s, k), CellCol(s, k))
      {
        var clear;
        if o == H {
          clear := NearShips(row, col + i);
        } else {
          clear := NearShips(row + i, col);
        }
        assert CellRow(s, i) == (if o == H then row else row + i);
        assert CellCol(s, i) == (if o == H then col + i else col);
        if !clear {
          return false;
        }
      }
      return true;
    }

    /** `hit(row, col)`: whether a placed ship covers the cell. */
    function Hit(row: int, col: int): (hit: bool)
      reads this
      requires IsSquare(board)
      requires -N <= row < N && -N <= col < N
      ensures Valid() ==> (hit <==> Covered(fleet, Wrap(row), Wrap(col)))
    {
      board[Wrap(row)][Wrap(col)] == SHIP
    }

    /** The candidate list of `place_ship`: every WATER cell of the board, and nothing else. */
    method WaterCells() returns (cells: seq<(int, int)>)
      requires IsSquare(board)
      ensures forall i :: 0 <= i < |cells| ==> IsWater(board, cells[i])
      ensures forall r, c :: IsWater(board, (r, c)) ==> (r, c) in cells
    {
      cells := [];
      for r := 0 to N
        invariant forall i :: 0 <= i < |cells| ==> IsWater(board, cells[i])
        invariant forall r', c' :: 0 <= r' < r && IsWater(board, (r', c')) ==> (r', c') in cells
      {
        for c := 0 to N
          invariant forall i :: 0 <= i < |cells| ==> IsWater(board, cells[i])
          invariant forall r', c' :: (0 <= r' < r || (r' == r && 0 <= c' < c)) && IsWater(board, (r', c'))
                                     ==> (r', c') in cells
        {
          if board[r][c] == WATER {
            cells := cells + [(r, c)];
          }
        }
      }
    }

    /** The search loop of `place_ship`: draws WATER cells from the
        candidate list at random (here: any), each with a random
        orientation, until one passes `possible` or the list is used up. */
    method ChooseRun(size: nat) returns (found: bool, row: int, col: int, o: Orientation)
      requires IsSquare(board)
      ensures found ==> InBounds(row, col) && board[row][col] == WATER
                        && RunClear(board, Ship(row, col, size, o))
      ensures !found ==> Stuck(board, size)
    {
      var candidates := WaterCells();
      while candidates != []
        invariant forall i :: 0 <= i < |candidates| ==> IsWater(board, candidates[i])
        invariant forall r, c :: IsWater(board, (r, c)) ==> (r, c) in candidates || Blocked(board, r, c, size)
        decreases |candidates|
      {
        var k :| 0 <= k < |candidates|;
        row, col := candidates[k].0, candidates[k].1;
        assert IsWater(board, candidates[k]);
        ghost var before := candidates;
        candidates := candidates[..k] + candidates[k + 1..];
        assert forall p :: p in before && p != before[k] ==> p in candidates by {
          forall p | p in before && p != before[k]
            ensures p in candidates
          {
            var i :| 0 <= i < |before| && before[i] == p;
            if i < k {
              assert candidates[i] == p;
            } else {
              assert candidates[i - 1] == p;
            }
          }
        }
        o :| o in [H, V];
        found := Possible(row, col, size, o);
        if found {
          return;
        }
      }
      return false, 0, 0, H;
    }

    /** `place_ship(size)`: on success a run of `size` WATER cells, inside
        the board and touching no earlier ship, becomes SHIP and nothing else
        changes; on failure (no WATER cell left to try) the board is unchanged. */
    method PlaceShip(size: nat) returns (placed: bool, ghost ship: Ship)
      requires Valid()
      modifies this`board, this`fleet
      ensures Valid()
      ensures !placed ==> board == old(board) && fleet == old(fleet)
      ensures placed ==> fleet == old(fleet) + [ship] && Placement(old(board), board, old(fleet), ship)
      ensures Tried(old(board), board, size, placed, ship)
    {
      var found, row, col, o := ChooseRun(size);
      ship := Ship(row, col, size, o);
      if !found {
        return false, ship;
      }
      PlacementIsSafe(board, fleet, ship);
      WriteRun(row, col, size, o);
      PlacementKeepsInvariant(old(board), board, fleet, ship);
      assert Placement(old(board), board, fleet, ship);
      fleet := fleet + [ship];
      return true, ship;
    }

    /** The writing loop at the end of `place_ship`: the cells of a run
        that lies on the board and covers only WATER become SHIP. */
    method WriteRun(row: int, col: int, size: nat, o: Orientation)
      requires IsSquare(board)
      requires Inside(Ship(row, col, size, o))
      requires forall r, c :: Occupies(Ship(row, col, size, o), r, c) ==> board[r][c] == WATER
      modifies this`board
      ensures IsSquare(board)
      ensures Drawn(old(board), board, Ship(row, col, size, o))
      ensures ShipCount(board) == ShipCount(old(board)) + size
    {
      ghost var s := Ship(row, col, size, o);
      for i := 0 to size
        invariant IsSquare(board)
        invariant Drawn(old(board), board, s.(size := i))
        invariant ShipCount(board) == ShipCount(old(board)) + i
      {
        DrawStep(old(board), board, s, i);
        if o == H {
          board := board[row := board[row][col + i := SHIP]];
        } else {
          board := board[row + i := board[row + i][col := SHIP]];
        }
      }
    }

    /** One attempt of `populate_board`: `[self.place_ship(ship) for ship in ships]`.
        Every ship is tried, also after an earlier one failed, on the board
        the ships before it left: `boards` runs from the board before the
        attempt to the one after it, one step per ship, as `Tries` says.
        When all succeed the fleet has grown by exactly these ships, in
        order. */
    method PlaceAll(ships: seq<nat>) returns (placed: seq<bool>, ghost boards: seq<Matrix>, ghost runs: seq<Ship>)
      requires Valid()
      modifies this`board, this`fleet
      ensures Valid()
      ensures |placed| == |ships| && Tries(ships, placed, boards, runs)
      ensures boards[0] == old(board) && boards[|ships|] == board
      ensures AllTrue(placed) ==> Sizes(fleet) == old(Sizes(fleet)) + ships
    {
      placed, boards, runs := [], [board], [];
      for k := 0 to |ships|
        invariant Valid()
        invariant |placed| == k && Tries(ships, placed, boards, runs)
        invariant boards[0] == old(board) && boards[k] == board
        invariant AllTrue(placed) ==> Sizes(fleet) == old(Sizes(fleet)) + ships[..k]
      {
        ghost var before := fleet;
        var p, s := PlaceShip(ships[k]);
        TriesNext(ships, placed, boards, runs, board, p, s);
        boards, runs := boards + [board], runs + [s];
        if p {
          SizesAppend(before, s);
          ExtendPrefix(old(Sizes(fleet)), ships, k);
        }
        AllTrueAppend(placed, p);
        placed := placed + [p];
      }
      assert ships[..|ships|] == ships;
    }

    /** `populate_board(ships)`: repeats `PlaceAll` on a board reset to all
        WATER until every ship fits; at most `fuel` attempts are made.
        `misses` holds the attempts that failed, in order. */
    method PopulateBoard(ships: seq<nat>, fuel: nat) returns (ok: bool, ghost misses: seq<Attempt>)
      requires Valid() && fleet == []
      modifies this`board, this`fleet
      ensures Valid() && Charted(board)
      ensures ok ==> Sizes(fleet) == ships && ShipCount(board) == Sum(ships)
      ensures !ok ==> fleet == [] && (board == old(board) || board == Filled(WATER))
      ensures Misses(ships, old(board), misses) && |misses| <= fuel && (ok <==> |misses| < fuel)
    {
      var attempts := 0;
      misses := [];
      while attempts < fuel
        invariant Valid() && fleet == []
        invariant board == old(board) || board == Filled(WATER)
        invariant Misses(ships, old(board), misses) && |misses| == attempts <= fuel
        invariant board == if attempts == 0 then old(board) else Filled(WATER)
      {
        var placed, boards, runs := PlaceAll(ships);
        if AllTrue(placed) {
          return true, misses;
        }
        MissesAppend(ships, old(board), misses, Attempt(placed, boards, runs));
        misses := misses + [Attempt(placed, boards, runs)];
        board := Filled(WATER);
        fleet := [];
        WaterIsEmpty();
        attempts := attempts + 1;
      }
      return false, misses;
    }
  }
}
