# cubestate in Dafny

cubestate is an esoteric language: a program is a sequence of Rubik's-cube
moves, and the Brainfuck code it stands for is read off the faces of the cube.
This project models the four pieces of logic the compiler is built from and
proves what each promises.

- **The flat-array cube** (`cube.js`, module `CubeModel` in `cube.dfy`, tables
  in `cube_tables.dfy`). A cube is 54 facelets; the solved cube holds colour
  `i / 9` at facelet `i`. `U`, `x` and `y` are permutation tables. Every other
  move is a string of other moves. `apply` splits a move string at spaces and
  handles the `'` and `2` suffixes. `applyMove` permutes the facelets (`new[i] =
  old[p[i]]`, or `new[p[i]] = old[i]` for an inverse) or expands a composite
  move. The spec functions `Applied` / `TokensApplied` / `TokenApplied` /
  `MoveApplied` are mutually recursive. They terminate on a rank of move names,
  which the `...Acyclic` lemmas show the definitions respect. The class `Cube`
  holds the state, and its methods are proved against those functions.
- **The pruning table** (`util/cube.js`, module `PruneTable`). For each 9-bit
  mask it scatters the bits through a fixed permutation of 0..8 and adds 14
  "adjacent pair" terms. It then stores `(s * 3) >> 3` in a `Uint8Array`. The
  JavaScript operators are modelled on 32-bit values: `>>` takes its count
  `& 31` and shifts arithmetically; `<<`, `|` and `&` wrap to signed 32 bits;
  the store truncates to 8 bits. A reference definition on plain bits
  (`ReferenceEntry`) is proved equal to the JavaScript-semantics entry.
- **The Brainfuck chunker** (`util/chunk-bf.js`, module `ChunkBF`). It filters
  the eight Brainfuck commands out of a string. It then cuts them into chunks:
  a new chunk starts at every multiple of 9 and after every `.` or `,`.
- **The line compiler** (`cubestate.js`, module `CubeState`). The class
  `CSCompiler` keeps one cube for its whole life.
  - `compile` drops trailing empty lines and applies each line's moves.
  - It then emits the first 9 facelets, or the first N followed by `.` or `,`
    when the line ends in a `.N` or `,N` token.
  - Each facelet is written as one of `+ [ > ] < -`.

`text.dfy` (module `Text`) models the two string built-ins the core relies on,
`split` and `join` with a one-character separator.

Thrown TypeErrors are modelled as results. `Run(state, ok)` and
`Compilation(state, output, ok)` carry `ok == false` where the source throws,
together with the state the cube holds at that point.

## Model

| member | source | states |
|---|---|---|
| Text.Split | cube.js:91 | `split` yields at least one piece and no piece contains the separator |
| Text.SplitAppend | cube.js:91 | splitting `a + sep + b` gives the pieces of `a` followed by the pieces of `b` |
| Text.SplitSingle | cube.js:91 | a string without the separator is a single piece |
| Text.JoinSplit | cubestate.js:17-18 | joining the pieces of a split with the same separator gives the string back |
| Text.SplitJoin | cube.js:91 | splitting a join of separator-free pieces gives the pieces back |
| Text.JoinPush | cubestate.js:26 | joining one more piece appends the separator and that piece |
| CubeModel.Cube.constructor | cube.js:35-42 | a new cube has 54 facelets, facelet `i` holds `i / 9`, nine of each colour |
| CubeModel.UIsPermutation | cube.js:49-56 | the `U` table has 54 entries and is a permutation of 0..53 |
| CubeModel.XIsPermutation | cube.js:57-64 | the `x` table has 54 entries and is a permutation of 0..53 |
| CubeModel.YIsPermutation | cube.js:65-72 | the `y` table has 54 entries and is a permutation of 0..53 |
| CubeModel.BasicMovesArePermutations | cube.js:48-72 | every table-valued entry of `Cube.moves` is a permutation of 0..53 |
| CubeModel.RankOneAcyclic | cube.js:73-88 | `F`, `z` and `d` are composites whose definitions only name moves of lower rank |
| CubeModel.RankTwoAcyclic | cube.js:74-76 | `R`, `L` and `D` only name moves of lower rank |
| CubeModel.BackAndEquatorAcyclic | cube.js:77-86 | `B`, `b` and `E` only name moves of lower rank |
| CubeModel.WideMovesAcyclic | cube.js:80-82 | `r`, `u` and `l` only name moves of lower rank |
| CubeModel.RankFourAndFiveAcyclic | cube.js:79-87 | `f`, `M` and `S` only name moves of lower rank |
| CubeModel.DefinitionsAcyclic | cube.js:73-87 | every composite definition names only moves of lower rank, so expansion terminates |
| CubeModel.PermuteMultiset | cube.js:119-125 | a forward move keeps the number of facelets of each colour |
| CubeModel.UnpermuteMultiset | cube.js:119-125 | an inverse move keeps the number of facelets of each colour |
| CubeModel.ScatterPlaces | cube.js:120-121 | the inverse loop puts `old[i]` at `new[p[i]]` for every `i` |
| CubeModel.PermuteThenUnpermute | cube.js:119-125 | a forward move followed by its inverse restores the state exactly |
| CubeModel.UnpermuteThenPermute | cube.js:119-125 | an inverse move followed by the forward move restores the state exactly |
| CubeModel.Applied | cube.js:90-108 | `apply` keeps 54 facelets and the count of every colour |
| CubeModel.TokensApplied | cube.js:93-107 | the token loop keeps 54 facelets and the count of every colour |
| CubeModel.TokenApplied | cube.js:96-106 | one token keeps 54 facelets and the count of every colour |
| CubeModel.MoveApplied | cube.js:110-127 | `applyMove` on a key of the moves table keeps 54 facelets and the count of every colour (see Findings for inherited names) |
| CubeModel.TokensAppliedConcat | cube.js:93-107 | tokens run left to right: the second list starts from the state the first reached, unless the first threw |
| CubeModel.AppliedConcat | cube.js:91-107 | `apply(a + " " + b)` is `apply(a)` then `apply(b)`, stopping where `a` throws |
| CubeModel.AppliedSingle | cube.js:91-106 | a move string without spaces is one token |
| CubeModel.UnknownTokenFails | cube.js:111-119 | a token that is not a key of the moves table itself (the empty token included) throws and leaves the state as it was |
| CubeModel.InheritedNoOp | cube.js:110-127 | as written, `toString`, `valueOf`, `toLocaleString` and `__proto__` are found on `Object.prototype` and run no loop round, so `applyMove` reports success, changes no facelet and leaves no `undefined` property; `MoveApplied` throws on them |
| CubeModel.InheritedBlanks | cube.js:110-127 | as written, an inherited function of non-zero length (`constructor`, `hasOwnProperty`, ...) turned forward, on a state array whose `undefined` property holds no colour (a new cube, or any state whose last move was not an inherited inverse), writes that value over facelet 0, so the colour counts change |
| CubeModel.InheritedPairRestores | cube.js:110-127 | as written, an inherited inverse of length 1 stores facelet 0 as the array's `undefined` property, and an inherited forward move of length 1 right after it copies it back, so the pair leaves the cube as it was |
| CubeModel.DoubleIsTwice | cube.js:100-103 | `X2` has the effect of `X X` |
| CubeModel.CompositeIgnoresInverse | cube.js:113-115 | for a composite move `X`, `X'` has the same effect as `X` |
| CubeModel.BasicRoundTrip | cube.js:119-125 | for a table move `X`, both `X X'` and `X' X` restore the state exactly |
| CubeModel.NineOfEachColour | cube.js:35-42 | a state with the solved cube's colours (nine of each) has every facelet in 0..5 |
| CubeModel.Cube.Apply | cube.js:90-108 | `apply` leaves the state and the throw flag that `Applied` gives, and keeps nine of each colour |
| CubeModel.Cube.ApplyToken | cube.js:94-106 | one token runs as `TokenApplied` says: `'` inverts, `2` applies twice, any other token applies as it is |
| CubeModel.Cube.ApplyMove | cube.js:110-127 | `applyMove` leaves the state and the throw flag that `MoveApplied` gives |
| CubeModel.Cube.Turn | cube.js:117-127 | the array loop replaces the state by its forward or inverse permutation |
| PruneTable.AndOne | util/cube.js:37 | `1 & x` is the low bit of `x` |
| PruneTable.OrOfSmall | util/cube.js:34 | `|` on values below 512 is bitwise or and stays below 512 |
| PruneTable.MapIsPermutation | util/cube.js:33 | `map` is a permutation of 0..8, with `MapInverse` its inverse |
| PruneTable.BitmapBits | util/cube.js:34 | `bitmap` is below 512, and its bit `map[j]` is bit `j` of `i` |
| PruneTable.BitmapKeepsPopcount | util/cube.js:33-34 | `bitmap` has as many set bits as `i` |
| PruneTable.BitmapMonotone | util/cube.js:34 | the bits of `bitmap(a)` are a subset of those of `bitmap(b)` whenever those of `a` are a subset of those of `b` |
| PruneTable.NegativeShift | util/cube.js:39-40 | for `j` in 0..2 the shift count `j - 3` becomes `j + 29`, the shifted value is 0, and the vertical term is bit `j` |
| PruneTable.AdditionsAt | util/cube.js:36-41 | the horizontal term is added only where `j % 3 != 0` and the vertical only where `j != 3`; each equals the or of the two bits |
| PruneTable.ScoreIsReference | util/cube.js:35-42 | the inner loop's sum equals the 14-term neighbour count on the bits |
| PruneTable.ScoreBound | util/cube.js:35-42 | `s` lies in 0..14 |
| PruneTable.ScoreMonotone | util/cube.js:35-42 | more set bits never lower `s` |
| PruneTable.EntryOfScore | util/cube.js:43 | `(s * 3) >> 3` is `floor(3s / 8)` for `s` in 0..14 |
| PruneTable.EntryBound | util/cube.js:43 | every entry lies in 0..5 |
| PruneTable.EntryIsReference | util/cube.js:31-43 | the entry computed with JavaScript operators equals the reference entry on plain bits |
| PruneTable.ZeroEntry | util/cube.js:31-43 | the entry for mask 0 is 0 |
| PruneTable.EntryMonotone | util/cube.js:34-43 | if the bits of `a` are a subset of those of `b`, the entry for `a` is at most the entry for `b` |
| PruneTable.StoredEntry | util/cube.js:43 | storing into the `Uint8Array` keeps the value, which is the reference entry |
| PruneTable.ScoreOf | util/cube.js:35-42 | the inner `for` loop computes `Score(bitmap)` |
| PruneTable.EntryOf | util/cube.js:32-43 | one outer pass yields the byte that is the reference entry of `i` |
| PruneTable.BuildPruneLookup | util/cube.js:2-49 | the table has 512 entries, one per 9-bit mask, each the reference entry |
| ChunkBF.Filter | util/chunk-bf.js:4 | the filtered string holds only Brainfuck commands and is no longer than the input |
| ChunkBF.FilterCounts | util/chunk-bf.js:4 | every command is kept as often as it occurs; everything else is dropped |
| ChunkBF.FilterOfCommands | util/chunk-bf.js:4 | a string of commands is left as it is |
| ChunkBF.FilterIdempotent | util/chunk-bf.js:4 | filtering twice is filtering once |
| ChunkBF.FilterAppend | util/chunk-bf.js:4 | filtering distributes over concatenation |
| ChunkBF.FlattenPush | util/chunk-bf.js:8 | pushing a chunk appends it to the concatenation and moves no earlier chunk |
| ChunkBF.FlattenSetLast | util/chunk-bf.js:11 | extending the last chunk extends the concatenation and moves no chunk |
| ChunkBF.WithinBlocksShort | util/chunk-bf.js:7-9 | chunks within their blocks of nine hold at most nine commands |
| ChunkBF.NineStartsChunk | util/chunk-bf.js:7-11 | the command at every filtered index that is a multiple of 9 is the first of its chunk |
| ChunkBF.StepFlatten | util/chunk-bf.js:7-15 | one pass appends its command to the concatenation and leaves every chunk start in place |
| ChunkBF.StepWithinBlocks | util/chunk-bf.js:7-11 | one pass keeps every chunk within its block of nine |
| ChunkBF.StepInputOutputLast | util/chunk-bf.js:11-15 | one pass keeps every `.` / `,` last in its chunk with another chunk after it |
| ChunkBF.StepBoundaries | util/chunk-bf.js:7-15 | one pass starts chunks only at a multiple of 9 or right after `.` / `,` |
| ChunkBF.StepEmpty | util/chunk-bf.js:7-15 | one pass keeps a chunk empty exactly when it follows a chunk ending in `.` / `,` and starts at a multiple of 9 or at the end |
| ChunkBF.EmptyChunkAtBlockEnd | util/chunk-bf.js:7-15 | for `++++++++.+` the chunks `++++++++.`, `""`, `+` meet that rule and `++++++++.`, `+` do not |
| ChunkBF.Step | util/chunk-bf.js:6-16 | one pass keeps all of the above for the commands seen so far |
| ChunkBF.ChunkBF | util/chunk-bf.js:1-19 | the chunks concatenate to the filtered string; there are none iff it is empty; only commands; each within its block of nine, so at most nine; `.` / `,` only last and always followed by a chunk; chunks start only at a multiple of 9 or after `.` / `,`; a chunk is empty exactly when it follows a chunk ending in `.` / `,` and starts at a multiple of 9 or at the end |
| CubeState.Glyph | cubestate.js:35 | a value gives at most one symbol, exactly one iff it is a colour 0..5, and that symbol reads back as the colour |
| CubeState.RenderFacelets | cubestate.js:35 | rendering writes only the six symbols and, for colours 0..5, one symbol per facelet in order |
| CubeState.RenderRoundTrip | cubestate.js:35 | the colours can be read back from the rendered symbols |
| CubeState.Punctuation | cubestate.js:23-31 | a last token starting with `.` or `,` gives that command, any other token none |
| CubeState.SliceLength | cubestate.js:35 | when `tok[1]` is a digit the width is that digit's value; a non-zero width always comes from such a digit, so a NaN end gives 0 |
| CubeState.RenderSkipsNonColour | cubestate.js:35 | a non-colour among the first `n` facelets makes the rendering shorter than `n` |
| CubeState.ConstructorLineShort | cubestate.js:33-35 | with the lookup of cube.js:111 as written (the line still runs through the joined moves), a `constructor` line on a state array whose `undefined` property holds no colour renders fewer than nine symbols |
| CubeState.ConstructorAfterInheritedInverse | cubestate.js:33-35 | with the same lookup, a `constructor` line right after `hasOwnProperty'` (or another inherited inverse of length 1) renders all nine symbols |
| CubeState.PlainLine | cubestate.js:17-33 | a line without a `.N` / `,N` token applies the whole line and emits nine facelets |
| CubeState.PunctuatedLine | cubestate.js:23-35 | a `.N` / `,N` token is cut off the moves (moves, space and token rebuild the line), sets the width to N and the command to its first character |
| CubeState.LineCompiled | cubestate.js:17-35 | a line keeps 54 facelets and emits nothing when its moves throw |
| CubeState.EmittedShape | cubestate.js:35 | a line emits exactly its width in symbols, spelling the first facelets of the cube, then its command |
| CubeState.BarePunctuationThrows | cubestate.js:26-33 | a line that is only `.N` / `,N` applies no moves, and `apply("")` throws |
| CubeState.Trimmed | cubestate.js:12-14 | trimming drops exactly the trailing empty lines and fails iff every line is empty |
| CubeState.LinesCompiled | cubestate.js:16-36 | compiling lines keeps 54 facelets |
| CubeState.Compiled | cubestate.js:7-39 | `compile` keeps 54 facelets |
| CubeState.LinesPush | cubestate.js:16-36 | one more line runs from the cube the earlier lines left, and its output follows theirs |
| CubeState.LinesAppend | cubestate.js:16-36 | the lines run in order on one cube: the second part starts from the cube the first left, and the output is the concatenation in line order |
| CubeState.FailureStops | cubestate.js:33 | once a line throws, no later line is compiled |
| CubeState.LinesKeepColours | cubestate.js:33 | compiling changes no colour count |
| CubeState.LinesOutput | cubestate.js:35 | lines that run through emit exactly their widths plus commands, and only Brainfuck commands |
| CubeState.ProgramOutput | cubestate.js:8-36 | `compile` writes only Brainfuck commands and, when it runs through, exactly the widths of its kept lines plus their commands |
| CubeState.EmptyProgramThrows | cubestate.js:12-14 | a program of nothing but newlines throws and leaves the cube alone |
| CubeState.TrailingNewline | cubestate.js:10-14 | a trailing newline changes nothing |
| CubeState.TrimLines | cubestate.js:12-14 | the trimming loop finds the lines `Trimmed` gives, and fails where it does |
| CubeState.CSCompiler.constructor | cubestate.js:3-5 | a new compiler owns a fresh, solved cube |
| CubeState.CSCompiler.CompileLine | cubestate.js:17-35 | one pass of the line loop applies the moves to the cube and returns what `LineCompiled` gives |
| CubeState.CSCompiler.Compile | cubestate.js:7-39 | `compile` leaves the cube, output and throw flag that `Compiled` gives from the state before the call, so the cube carries over to the next call |

## Findings

| source | as written | input that shows it | evidently intended | confidence | as-written member | corrected member |
|---|---|---|---|---|---|---|
| cube.js:111 | `Cube.moves[raw]` also finds members inherited from `Object.prototype` | the token `constructor` on a new cube: `applyMove` succeeds and writes `undefined` over facelet 0, so the line renders fewer than nine symbols | a name that is not a move throws | not executed | CubeModel.InheritedBlanks | CubeModel.MoveApplied |
| cube.js:111 | the same lookup | the token `toString`: `applyMove` succeeds and changes nothing | a name that is not a move throws | not executed | CubeModel.InheritedNoOp | CubeModel.UnknownTokenFails |

## Left out

- `printState`, the `console.log` in `applyMove` and the `Array.prototype.chunk_inefficient` extension (cube.js:1-10, 129-135): console output only.
- test.js: file reading and console output only, so test.js is not part of this model.
- The commented-out brute-force table and popcount variant (util/cube.js:4-30, 44-48): dead code.
- CubeState.CSCompiler.Compile: cubestate.js:33 passes the array `moves` to `apply`, which calls `.split` on it (cube.js:91), so as written every line would throw. The model applies the evident intent, `moves.join(" ")`. One consequence is that a line made only of a `.N` / `,N` token applies the empty move string, which throws (`BarePunctuationThrows`).
- `var in` (cubestate.js:21) is a syntax error, as `in` is a reserved word; the model calls the flag `inp`.
- CubeModel.MoveApplied: looks a name up among the moves table's own keys, so a name inherited from `Object.prototype` throws; the colour-count promises of `Applied`, `Cube.Apply` and `LinesKeepColours` hold for this corrected lookup. The lookup as written is `MoveAppliedAsWritten` (see Findings).
- CubeModel.MoveAppliedAsWritten: models one call of `applyMove` as written, with the state array's `undefined` property as a parameter and a result; `apply` and `compile` with that lookup, which would pass the property from token to token and line to line, are not modelled.
- CubeModel.InheritedBlanks: holds only when the array's `undefined` property holds no colour; after an inherited inverse it holds a facelet, the case `InheritedPairRestores` covers.
- CubeState.ConstructorLineShort: holds only under the same condition; `ConstructorAfterInheritedInverse` covers the line after an inherited inverse.
- CubeModel.UnknownTokenFails: covers names that are not keys of the table itself; inherited names such as `toString` succeed as written (see Findings).
- CubeModel.CompositeIgnoresInverse: states the source's behaviour as written. For a composite move, `X'` drops the inverse flag (cube.js:113-115); no corrected inverse is modelled.
- PruneTable.BuildPruneLookup: states each entry as `ReferenceEntry(i)`, the count on plain bits. `EntryIsReference` proves this equal to `PruneEntry(i)`, the entry computed with JavaScript operators.
- CubeState.Compiled: when a line throws, the source's `compile` returns nothing. The model still reports `ok == false` together with the output of the lines before it, which the source discards, and the cube state reached, which the source keeps in the compiler object.
- util/cube.js writes `pruneLookup` into a global `Cube` that it never `require`s; that global is the `Cube` constructor of cube.js. The model builds the table with the standalone method `BuildPruneLookup` and does not attach it to `Cube`.
- Thrown errors: `apply` and `applyMove` return a throw flag instead of raising, and the `Cube` state is a `seq` that each move replaces (the source also replaces `this.state` with a fresh array). Aliasing of that array is not modelled.
