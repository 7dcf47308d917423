# Map prototype of a Game of Life visualiser, in Dafny

This project models the grid buffer of the `Map` prototype in `src/main.rs`.

- `Map::new` takes a pixel width, a pixel height and a cell size. It allocates one colour per whole cell, which is `(width / cell_size) * (height / cell_size)` slots, and makes every slot `WHITE`.
- `Map::iter_with_coords` walks that flat buffer in order. It pairs slot `i` with the coordinates `(i % width, i / width)` and with the colour stored in the slot.

The source file contains no Conway rule, neighbour lookup or toroidal wrap, so the model has none either.

Modules:

- `Colors` (`colors.dfy`): the colour type and `WHITE`. A colour is four real channels and is only compared for equality.
- `Grid` (`grid.dfy`): `Coords`, `Map`, `New`, `IterWithCoords` and the index/coordinate round trip. This is the code as written.
- `CellLayout` (`cell_layout.dfy`): the row-major cell layout drawn in the doc comment of `Map::cells`. It also proves that the code as written follows that layout for one-pixel cells, a single row of cells or an empty grid, and leaves it once cells are wider than one pixel and there are at least one column and at least two rows (see Findings).
- `DivMod` (`divmod.dfy`): helper facts about Euclidean quotient and remainder.

`New` returns `Ok(map)` or `Panicked(reason)`. That follows the three ways `Map::new` stops the program:

- a zero cell size divides by zero;
- in a debug build, a cell count above the 64-bit `usize` maximum overflows the multiplication;
- `vec!` refuses a buffer of more bytes than `isize::MAX`, at 16 bytes per colour (four `f32` channels).

`iter_with_coords` takes `i % width`, which panics when `width` is zero and the buffer is non-empty. `IterWithCoords` therefore requires that the width is non-zero or the buffer is empty. `Grid.NewMapsEnumerate` shows that every map `New` builds meets this requirement.

The model is functional, so the enumeration takes the map by value and cannot change the buffer.

## Model

| member | source | states |
|---|---|---|
| `Grid.New` | src/main.rs:34-41 | Builds a map exactly when the cell size is positive and the buffer's bytes (16 per colour) fit in the signed word. A zero cell size panics with division by zero. A cell count past the unsigned word panics with multiply overflow. A count that fits but whose bytes do not panics with capacity overflow. A built map keeps width, height and cell size unchanged. Its buffer length is exactly the floor-divided column count times the row count, and every cell is `WHITE`. |
| `Grid.NewSizeLimits` | src/main.rs:39 | Concrete limits: `usize::MAX` x 2 one-pixel cells overflow the multiplication. 2^59 cells overflow the capacity. 2^59 - 1 cells are built. |
| `Grid.IndexToCoords` | src/main.rs:46-49 | For a positive width, the column of index `i` is below the width, and `x + y * width` gives back `i`. |
| `Grid.CoordsRoundTrip` | src/main.rs:46-49 | The reverse direction: coordinates whose column is below the width come back unchanged from their index. So the index/coordinate conversion is a bijection. |
| `Grid.IterWithCoords` | src/main.rs:43-53 | Yields exactly one item per buffer slot, in buffer order. Item k carries the colour `cells[k]`. Its column is below the width, and its coordinates read back to index k. |
| `Grid.CollectWithCoords` | src/main.rs:44-52 | Draining the enumeration slot by slot gives one item per slot, with colour `cells[k]` and coordinates that round-trip to k. The drained sequence is exactly the enumeration `IterWithCoords`. |
| `Grid.IndexOrderIsScanOrder` | src/main.rs:47-48 | A smaller index always gets coordinates strictly earlier in row-then-column order. |
| `Grid.ItemsInScanOrder` | src/main.rs:43-53 | The enumerated coordinates are strictly increasing in (y, x) lexicographic order, so no two items share coordinates. |
| `Grid.RowsBounded` | src/main.rs:48 | No enumerated row exceeds `(len - 1) / width`, the row of the last slot. |
| `Grid.NewMapsEnumerate` | src/main.rs:39-48 | Every map `New` builds has a non-zero width or an empty buffer, so the remainder by zero is never reached from it. |
| `Grid.ZeroWidthYieldsNothing` | src/main.rs:39-48 | With zero pixel width and a positive cell size, `New` succeeds with an empty buffer, and the enumeration yields nothing. |
| `CellLayout.CellIterWithCoords` | src/main.rs:23-29 | The documented layout: one item per slot with colour `cells[k]`. Each cell lies inside the grid's columns and rows. Its coordinates read back to k in rows of `width / cell_size`. |
| `CellLayout.EveryCellListed` | src/main.rs:23-29 | Every cell of the grid appears in the documented layout, at slot `x + y * columns`. Together with the item contract, slots and cells are in one-to-one correspondence. |
| `CellLayout.GridCellDrawnInside` | src/main.rs:64-68 | A cell inside the grid is drawn as a square that lies entirely within the pixel area. |
| `CellLayout.UnitCellsFollowLayout` | src/main.rs:23-48 | With one-pixel cells, the enumeration as written is exactly the documented layout. |
| `CellLayout.SingleRowFollowsLayout` | src/main.rs:23-48 | With a single row of cells, whatever the cell size, the enumeration as written is exactly the documented layout. |
| `CellLayout.LargerCellsBreakLayout` | src/main.rs:47-48 | With cells wider than one pixel, at least one column and at least two rows, the enumeration as written gives slot `columns` the coordinates `(columns, 0)`. That column is outside the grid, and the documented layout puts the slot at `(0, 1)`. |
| `CellLayout.ProgramMapMisplacesSecondRow` | src/main.rs:82 | On the program's own 900 x 600 map with 10-pixel cells, slot 90 is enumerated as (90, 0) instead of (0, 1). |
| `CellLayout.ProgramMapDrawnOffScreen` | src/main.rs:64-65 | On the same map, the last slot is enumerated as (899, 5). Its square is not drawn inside the 900 x 600 area. |

## Left out

- `Map::draw` (src/main.rs:55-73) is left out: it draws through a foreign graphics library, with `f32` positions and an `i as u8` colour. The model keeps only its placement of a square at `x * cell_size`, `y * cell_size` (`CellLayout.DrawnInside`).
- `main` (src/main.rs:77-94) is left out: it is the asynchronous frame loop, the window-size request and the frame wait.
- The `f32` constants `WIDTH` and `HEIGHT` and their cast to `usize` are left out. `New` takes natural numbers; the program's call is used only through its values 900, 600 and 10.
- The unused `Cell` struct and the `println!` of the cell count are left out.
- Colours are four reals rather than `f32`: only equality with `WHITE` matters here.
- Grid.New: follows debug-build arithmetic. A release build wraps the cell count modulo 2^64 instead of panicking with multiply overflow, and that case is not modelled. The capacity-overflow panic is modelled for 16-byte colours on a 64-bit target: counts of 2^59 and above. Allocation failure below that limit aborts the process, depends on the machine's memory, and is not modelled.
- Grid.IterWithCoords: the panic of `i % 0` is a precondition, not a result. It is reachable only for a map not built by `New` (see `Grid.NewMapsEnumerate`).
- The iterator's laziness is not modelled: the enumeration is a whole sequence.

## Findings

| source | as written | input that shows it | evidently intended | confidence | as-written member | corrected member |
|---|---|---|---|---|---|---|
| src/main.rs:47-48 | The coordinates are `i % width` and `i / width`, where `width` is the pixel width. | `Map::new(900, 600, 10)`: slot 90 gets (90, 0) rather than (0, 1). The last slot gets (899, 5), whose square starts at pixel 8990. | Divide by the column count `width / cell_size`, as the doc comment's row-major layout and the `x * cell_size` drawing assume. | high; not executed | `CellLayout.LargerCellsBreakLayout`, `CellLayout.ProgramMapDrawnOffScreen` | `CellLayout.CellIterWithCoords`, with `CellLayout.EveryCellListed` and `CellLayout.GridCellDrawnInside` |
