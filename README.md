# tweedledum_tests: the random CNF-SAT generator and its statistics pipeline

This project models the core of `analysis.cpp` (and the identical generator in
`example.cpp`). The `rbool`, `rint` and `random_SAT` of example.cpp (lines 17-56) are
the same code as those of analysis.cpp, so the same members model both. Three parts are
modelled:

- **The random CNF-SAT generator** `random_SAT(N, K, M)` and its helpers `rint` and
  `rbool`. The generator builds a DIMACS text: the header `p cnf N M`, then M clause
  lines. Each clause line is a newline, K signed literals each followed by one space,
  and the terminator `0`. A clause's variables are K *distinct* values sampled with
  `rint(N)`: a draw already present in the clause vector is rejected.
- **The online accumulators** `Mean` and `Max`. Both start at 0 and take one `int`
  sample at a time.
- **The rotating table writer** `TableFile`. It opens a file on the first row it is
  given, writing a header of right-justified column names. Each row of values is
  right-justified in the same widths. The file is closed after its 101st row, and
  every `close()` advances the file counter that numbers the next file.

The C library's `rand()` is a parameter: a sequence of draws consumed left to right.
Where the program would call `rand()` forever, the model runs out of draws and returns
`None`. This happens when K > N, so that K distinct variables can never be found.

The modules follow the program:

- `Optional` and `Format` (format.dfy):
  - `std::to_string`;
  - the `setw` padding;
  - a reader that recovers an integer from text;
  - joining a sequence of strings.
- `Dimacs` (dimacs.dfy): the instance text layout and a decoder for it.
- `Generator` (generator.dfy):
  - `rint` and `rbool`;
  - a functional specification of the rejection loop;
  - imperative methods that follow the C++ loops over a `vector`, modelled as an `array`.
- `Accumulators` (accumulators.dfy): `Mean` and `Max` as classes, each with a function
  of the sample history that specifies it.
- `Table` (table.dfy):
  - `TableFile` as a class;
  - a functional specification of its state: the files written so far, whether the
    stream is open, the counter and the row count.

### Where the code and its documented behaviour differ

The model follows the code in each case.

- **The 101st row.** `write_row` increments `n_lines` and then closes the file when
  `n_lines > 100`, so a file holds 101 rows, not 100. `HundredFiftyRows` shows that 150
  rows give files of 101 and 49 rows, not 100 and 50.
- **`close()` always advances the counter.** It increments `file_counter`
  unconditionally, including on the final close after the last row.
- **The `Mean` divisor.** `Mean::sample` divides by `N + 1` after incrementing `N`. A
  constant stream of 20 therefore settles at 15, not 20 (`MeanOfTwenties`). The
  `Mean` class models this formula as written; see Findings.

## Model

| member | source | states |
|---|---|---|
| Generator.RBool | analysis.cpp:20-23 | the coin flip is 0 or 1 |
| Generator.RInt | analysis.cpp:25-28 | a draw gives a variable index in [1, i] |
| Generator.Sign | analysis.cpp:122 | a literal's magnitude is its variable, and the literal is negative exactly when the coin flip is 0 |
| Generator.SignText | analysis.cpp:122 | the optional `-` followed by `to_string(var)` is the decimal text of the signed literal |
| Generator.PickVarsResult | analysis.cpp:109-117 | the rejection loop only appends fresh in-range variables to what it was given, and it stops at exactly K of them |
| Generator.GenClauseWellFormed | analysis.cpp:105-124 | every generated clause has exactly K literals over pairwise distinct variables in [1, N], and it consumes at least one draw |
| Generator.GenClausesWellFormed | analysis.cpp:103-127 | M generated clauses extend the clauses before them, and every one of them satisfies the clause invariant |
| Generator.RandomSatOutput | analysis.cpp:96-129 | the returned text decodes to the header N, M and as many clauses as the loop runs, each well formed; the text is exactly their DIMACS layout |
| Generator.PickVarsNeverFills | analysis.cpp:109-117 | with K > N the rejection loop never accepts K variables, however many draws it gets |
| Generator.TooManyLiterals | analysis.cpp:96-129 | with K > N and at least one clause, `random_SAT` never returns |
| Generator.Example | analysis.cpp:96-129 | on N=3, K=2, M=1 and draws 0,0,1,1,0, the repeated draw is rejected and the result is `p cnf 3 1\n1 -2 0` |
| Generator.Find | analysis.cpp:113 | `std::find` returns the first index holding the value, or the end when no slot holds it |
| Generator.FindInPrefix | analysis.cpp:106-113 | searching the whole zero-filled vector finds a draw exactly when the accepted prefix holds it |
| Generator.ChooseVars | analysis.cpp:105-117 | filling the K-slot vector by rejection gives exactly the variables of the rejection-loop specification, or fails on the same draws |
| Generator.ClauseText | analysis.cpp:119-124 | the clause string built literal by literal is the DIMACS line of the signed clause |
| Generator.MakeClause | analysis.cpp:105-126 | one pass of the loop over M produces the line of the specified clause and the position of the next draw |
| Generator.PickVars | analysis.cpp:109-117 | the rejection loop from a given state: on success it returns at least K variables, extending those accepted so far, and it never moves back in the draws; it fails only while fewer than K are accepted |
| Generator.ChooseSpec | analysis.cpp:105-117 | the variables of one clause: the first draw unconditionally, then the rejection loop; without a first draw there is no clause |
| Generator.PickSigns | analysis.cpp:120-123 | one coin flip per variable, in order: it succeeds exactly when enough draws remain, and each literal has its variable's magnitude and is negative exactly when its draw is even |
| Generator.GenClause | analysis.cpp:105-124 | one clause: exactly K literals, consuming at least one draw and no more than there are |
| Generator.GenClauses | analysis.cpp:103-127 | M more clauses after those already made: M of them are added, and no clause is made when M is 0 |
| Generator.RandomSatSpec | analysis.cpp:96-129 | what `random_SAT` returns: a text that starts with the header, and exactly the header when M ≤ 0 |
| Generator.RandomSat | analysis.cpp:96-129 | the imperative `random_SAT` returns exactly what the specification does for every draw sequence |
| Format.IntToString | analysis.cpp:51 | `std::to_string` of an `int`, also what `<<` writes for one: at least one character, a minus sign then the digits for a negative number |
| Format.LeftPad | analysis.cpp:56 | `setw(w)` before a text: the field is `w` wide when the text is shorter, and otherwise exactly as long as the text |
| Format.ReadIntOfIntToString | analysis.cpp:100 | the text `to_string` writes reads back as the same integer when no digit follows it |
| Dimacs.Header | analysis.cpp:100 | the first line: at least 9 characters, starting with `p cnf ` |
| Dimacs.ClauseLine | analysis.cpp:120-124 | a clause line starts with the newline and ends with the terminator `0` |
| Dimacs.Text | analysis.cpp:100-126 | the whole instance text starts with the header |
| Dimacs.LitsTextSnoc | analysis.cpp:122 | one more literal extends the literal text by its decimal text and a space |
| Dimacs.LinesSnoc | analysis.cpp:126 | appending a clause line extends the text by exactly that line |
| Dimacs.DecodeLitsOfText | analysis.cpp:120-124 | a clause line of non-zero literals reads back as exactly that clause, stopping at its `0` |
| Dimacs.DecodeText | analysis.cpp:100-127 | the instance text is unambiguous: it decodes to the header values and clauses it was written from |
| Accumulators.TruncDiv | analysis.cpp:173 | C++ `int` division truncates toward zero, in both signs |
| Accumulators.MeanOf | analysis.cpp:171-174 | the state of a `Mean` after a stream of samples: its count is the number of samples |
| Accumulators.MeanStep | analysis.cpp:171-174 | one sample moves the mean to a value between the old value and the sample |
| Accumulators.MeanOfBounds | analysis.cpp:165-175 | the mean stays between the least and the largest of 0 and the samples, and counts every sample |
| Accumulators.MeanExample | analysis.cpp:165-175 | the samples 2, 4, 6 leave the values 1, 2, 3 |
| Accumulators.MeanTruncates | analysis.cpp:173 | a negative step truncates toward zero: the sample -1 leaves 0, where Euclidean division gives -1 |
| Accumulators.MeanOfConstantStream | analysis.cpp:172-173 | as written, one sample of 10 leaves 5 and two leave 6, not 10 |
| Accumulators.MeanOfTwenties | analysis.cpp:172-173 | as written, four or more samples of 20 leave 15 for ever |
| Accumulators.RunningMeanOfConstant | analysis.cpp:171-174 | with the divisor N, a stream of equal samples has exactly that mean |
| Accumulators.RunningMeanExample | analysis.cpp:171-174 | with the divisor N, the samples 2, 4, 6 leave their mean 4 |
| Accumulators.Mean.constructor | analysis.cpp:166-169 | a new mean has value 0 and count 0 |
| Accumulators.Mean.Sample | analysis.cpp:171-174 | the count goes up by exactly one, the value moves to between its old value and the sample, and the value stays the function of the sample history |
| Accumulators.MaxOf | analysis.cpp:182-185 | the value of a `Max` after a stream of samples: never below 0, and at least the last sample |
| Accumulators.Extremes | analysis.cpp:177-186 | 0 and every sample are at most `MaxOf` |
| Accumulators.MaxOfAttained | analysis.cpp:177-186 | `MaxOf` is 0 or one of the samples, so it is the maximum of 0 and the samples |
| Accumulators.MaxExample | analysis.cpp:177-186 | the samples 3, 1, 7, 2 leave 7; no samples, or only negative ones, leave 0 |
| Accumulators.Max.constructor | analysis.cpp:178-180 | a new maximum holds 0 |
| Accumulators.Max.Sample | analysis.cpp:182-185 | the value never decreases, is at least the sample, changes only to the sample, and stays the maximum of 0 and the history |
| Table.FileName | analysis.cpp:51-52 | the name of a file: the stem, at least ten characters of counter, then `.dat` |
| Table.FileNameField | analysis.cpp:51-52 | for every `int` counter the file name is the stem, ten digits that read back as the counter, and `.dat` |
| Table.FileNameInjective | analysis.cpp:51-52 | different counters give different file names |
| Table.FileNameExample | analysis.cpp:51-52 | the stem `data/t_` with counter 42 gives `data/t_0000000042.dat` |
| Table.CellAt | analysis.cpp:83-85 | each cell of a line (a row value's decimal text, or a column name in the header) follows the cells before it and is its text padded on the left with spaces to the column's width, never truncated |
| Table.OpenSpec | analysis.cpp:49-59 | opening adds one file named by the counter, holding just the header; the files before it are unchanged, the row count is 0 and the counter is unchanged |
| Table.CloseSpec | analysis.cpp:61-64 | `close()`: the stream is closed and the counter goes up by one; the files and the row count are untouched |
| Table.WriteRows | analysis.cpp:78-93 | `write_row` for each row in turn, as the driver calls it (analysis.cpp:241): the table invariant holds afterwards |
| Table.WriteRowSpec | analysis.cpp:78-93 | writing a row keeps the table invariant, and the table is open afterwards exactly when the row was not a file's 101st |
| Table.WriteRowClosed | analysis.cpp:78-93 | a row written to a closed table starts a new file named by the counter, holding the header and that row |
| Table.OpenRun | analysis.cpp:83-92 | rows written to an open file with room go to its end, and the file is closed exactly at its 101st row |
| Table.FillFile | analysis.cpp:78-93 | from a closed table, 1 to 101 rows fill one new file, with a header first; it is closed exactly when it holds 101 rows |
| Table.Rotation | analysis.cpp:78-93 | rows written from a closed table fill consecutively numbered files of 101 rows each, each with one header; the last file may be partial and is left open exactly when it is |
| Table.WriteAllThenClose | analysis.cpp:61-93 | a new table fed R rows and then closed has written ceil(R/101) files, and its counter is R/101 + 1 |
| Table.HundredFiftyRows | analysis.cpp:88-92 | 150 rows give two files, of 101 and 49 rows after their headers |
| Table.TableFile.constructor | analysis.cpp:39-47 | the stem is folder + `/` + timestamp, the columns keep their order, and no file is open |
| Table.TableFile.Open | analysis.cpp:49-59 | the object's new state is the specified `open()` state |
| Table.TableFile.Close | analysis.cpp:61-64 | the stream is closed and the counter advances, whether or not a file was open |
| Table.TableFile.WriteRow | analysis.cpp:78-93 | the object's new state is the specified `write_row()` state |
| Table.TableFile.FormatHeader | analysis.cpp:55-58 | the header text built column by column is the specified header line |
| Table.TableFile.FormatRow | analysis.cpp:83-86 | the row text built column by column is the specified row line |

## Left out

- Outside the core: the mockturtle and lorina conversion of the text into an XAG, the
  edge count `ntk_num_edges`, the `Random_sat_xag` wrapper, and the drivers `sim1` and
  `main` with their console output. None of these is part of this model.
- `srand`, `time` and `rand()`: the seed and the draws are a parameter. `get_timestamp`
  is left out; the timestamp is a constructor parameter of `TableFile`.
- Probability: the model states no statistical property of the draws, such as uniform
  variables or fair coin flips. The examples choose draws that are not random.
- `Generator.RandomSat`, `Generator.RandomSatSpec`: both require `1 <= N` and `1 <= K`,
  because every caller passes such values (analysis.cpp:205-224 and example.cpp:76).
  The model therefore does not cover the program's behaviour for other arguments:
  - For N < 0, `rint(N)` is well defined. C++ `%` truncates toward zero, so it gives a
    variable in [1, -N].
  - For N == 0, `rint(N)` divides by zero.
  - For K < 0, `vector<int>(K, 0)` throws `std::length_error`.
  - For M ≤ 0 the loop never runs, and `random_SAT` returns the header `p cnf N M` for
    any N and K. The model states this only for N ≥ 1 and K ≥ 1.
- Never-ending loops: when the draws run out, the model returns `None`. Only running out
  of draws is modelled, not a stream that never ends.
- `Generator.RandomSat`, `Generator.ChooseVars`: `int` overflow of N, K, M and of the
  loop counters is not modelled (integers are unbounded).
- `Accumulators.Mean.Sample`, `Accumulators.Max.Sample`: `int` overflow of
  `sample - value`, of `N` and of `value` is not modelled. Signed overflow is undefined
  behaviour in C++.
- `Table.FileName`: the counter is unbounded. For counters beyond ten digits (impossible
  for an `int`, and `string(10 - len, '0')` would throw) the model writes the digits
  without padding. `FileNameField` states the ten-digit layout for every counter up to
  2147483647.
- `Table.TableFile.Open`: requires the table to be closed. The program opens only a
  closed table, and `ofstream::open` on an open stream sets the fail bit, which is not
  modelled.
- `Table.TableFile.Close`: `ofstream::close` and its flush are modelled as always
  succeeding; I/O failures are not modelled.
- The file system holds each file as its name and its lines; the newline after every
  line is left implicit.
- `n_lines` is uninitialised in the program until the first `open()`. The model sets it
  to 0 in the constructor; no behaviour reads it before `open()`.
- `write_row` takes `vector<int*>`. The model takes the values themselves, at least
  `n_cols` of them; the indirection through `int*` is not modelled.

## Findings

| source | as written | input that shows it | evidently intended | confidence | as-written member | corrected member |
|---|---|---|---|---|---|---|
| analysis.cpp:172-173 | `N++` then `value += (sample - value) / (N+1)`: the divisor is one more than the sample count | the samples 20, 20, 20, … leaves 10, 13, 14, 15, 15, … and never reaches 20 | a running mean, `value += (sample - value) / N`, for which a constant stream keeps its value | high, not executed | Accumulators.MeanOfTwenties | Accumulators.RunningMeanOfConstant |

The `Mean` class keeps the formula as written, because the program's reported numbers
depend on it. `RunningMeanOf` is the corrected definition, and
`RunningMeanOfConstant` and `RunningMeanExample` prove the intended behaviour about it.
