# House price estimator: a Dafny model of its core

This project models two parts of a small house-price estimator written in
Python with pandas and scikit-learn.

1. **`impute_knn`**. It fills every missing entry of every numeric column of
   a data frame with a K-nearest-neighbours prediction. The model keeps the
   bookkeeping exactly:
   - the split of the frame into numeric and non-numeric columns;
   - `cols_nan`, the numeric columns with a missing entry;
   - `cols_no_nan`, the fully observed numeric columns, sorted by label;
   - the loop over `cols_nan`, which trains on the currently complete rows,
     queries the rows where the column is missing, and writes the answers
     in place into the cells the original frame has missing;
   - the final concatenation, numeric columns first.

   The regressor itself (`fit` followed by `predict`) is a function
   parameter.
2. **The `House` class and its class-wide `instances` registry**. This covers:
   - construction, which stores a house under its address and replaces any
     earlier one there;
   - lookup and deletion, as the menu actions do them;
   - the address listing;
   - the fixed line layout that `print_house_info` prints and
     `write_house_info_to_file` writes;
   - the name of the file the latter writes.

Modules:
- `Wrappers`: `Option` and `Result`.
- `Frames`: columns and frames, `select_dtypes`, `cols_nan` and `cols_no_nan`.
- `Imputer`: `impute_knn` in two forms. `Impute` is a specification
  function. `ImputeKnn` is a method with a loop that updates the working
  frame and is proved equal to `Impute`.
- `HouseLayout`: the info lines, a parser that reads them back, the newline
  termination, and the file name.
- `Houses`: the `House` class and a `Registry` class holding the
  `instances` dict.
- `Menu`: the registry logic of `delete_house`, `print_house_info` and
  `estimate_price` in Functions.py, without their prompts.

Modelling choices:
- A missing cell (NaN) is `None`.
- A Python dict iterates in insertion order. `Registry` therefore keeps an
  `order` sequence beside the `instances` map. Storing under an existing key
  keeps that key's place; deleting a key removes it from its place.
- Printed output is returned as a sequence of lines; `print()` adds the
  newline of each. The file text is built with `Terminated`, which follows
  each line with the `"\n"` the file writes add.
- How a number becomes text (`str()` of a float or int) is a parameter
  `render`.

Where the code raises, the model returns an error:
- `NoFeatureColumns`: `cols_no_nan` is empty, so `fit` gets no feature.
- `TooFewTrainingRows`: fewer than five complete rows for five neighbours.
- `PredictionCountMismatch`: the `.loc` assignment receives a different
  number of values than there are cells in the mask.

## Model

| member | source | states |
|---|---|---|
| Frames.SelectDtypes | Functions.py:17-18 | every selected column has the requested dtype flag, and no column is added |
| Frames.SelectDtypesAppend | Functions.py:17-18 | selecting from two parts one after the other is selecting from each and concatenating, so each dtype group keeps the frame's left-to-right order |
| Frames.SelectDtypesPartitions | Functions.py:17-18 | the numeric and the non-numeric selections together hold every input column exactly once (as multisets), so their lengths add up to the frame's width |
| Frames.SelectDtypesMembers | Functions.py:17-18 | a column is selected if and only if it is in the frame with the requested dtype |
| Frames.SelectDtypesShaped | Functions.py:17-18 | selected columns keep the frame's row count |
| Frames.IndicesWhere | Functions.py:20-21 | the positions below `m` whose column is (or is not) complete, exactly, in increasing order |
| Frames.ColsNan | Functions.py:20 | `cols_nan` is exactly the numeric columns with at least one missing entry, in frame order |
| Frames.NameLeq | Functions.py:21 | definition, no contract: Python's `str` order (code point by code point, a proper prefix first), by which `Index.difference` sorts. NameLeqTotal, InsertByNameSorted and SortByName state its properties |
| Frames.NameLeqTotal | Functions.py:21 | the label order used for sorting is total |
| Frames.InsertByName | Functions.py:21 | inserting a position keeps the multiset of positions plus the new one and keeps every position in range |
| Frames.InsertByNameSorted | Functions.py:21 | inserting into a label-sorted list keeps it sorted |
| Frames.SortByName | Functions.py:21 | the sort is a permutation of its input and is sorted by label |
| Frames.ColsNoNan | Functions.py:21 | `cols_no_nan` is exactly the fully observed numeric columns, each once, sorted by label |
| Frames.IncreasingOnce | Functions.py:21 | a strictly increasing list holds each element once |
| Frames.ColsNanNoNanPartition | Functions.py:20-21 | `cols_nan` and `cols_no_nan` are disjoint and together cover every numeric column |
| Imputer.MissingMask | Functions.py:24 | `.isna()`: one flag per cell, set exactly when that cell is missing (also the write mask of line 28) |
| Imputer.RowsWhere | Functions.py:24 | the rows where the mask holds, exactly, in increasing order, as many as the mask's true entries |
| Imputer.CompleteRows | Functions.py:25 | `ldf.dropna()` keeps exactly the rows with a value in every numeric column, in order |
| Imputer.Gather | Functions.py:27-28 | the feature matrix holds, at each selected row and feature, that cell's present value |
| Imputer.Target | Functions.py:27 | the target vector holds each training row's present value of the column |
| Imputer.FillAt | Functions.py:28 | the filled column keeps the column's length |
| Imputer.FillAtKeeps | Functions.py:28 | every cell outside the write mask keeps its value |
| Imputer.FillAtWrites | Functions.py:28 | the k-th masked row from the top receives the k-th prediction |
| Imputer.RowsWhereLast | Functions.py:24 | the masked rows of a mask are those of all but its last entry, followed by the last row if it is masked |
| Imputer.FillAtCoversMask | Functions.py:28 | after the write no masked cell is missing |
| Imputer.Step | Functions.py:24-28 | one iteration changes only column `col` and keeps the frame's shape. When `col` is still as in the original frame, only missing cells are written and `col` comes out complete. With no predictor it fails with `NoFeatureColumns`. With predictors but fewer than five complete rows it fails with `TooFewTrainingRows`, carrying the row count. A count mismatch reports the number of masked cells and differs from the number received. Which answer lands in which cell is stated by StepWrites |
| Imputer.Answers | Functions.py:25-28 | definition, no contract: `fit` on the complete rows over `cols_no_nan` with `col` as target, then `predict` on the rows where `col` is missing. StepWrites states where its answers go |
| Imputer.StepWrites | Functions.py:24-28 | on a successful step with `col` still as in the original frame, the regressor trained on the complete rows over `cols_no_nan` gives one answer per row where `col` is missing, and the k-th such row from the top receives the k-th answer |
| Imputer.CompleteRowsPresent | Functions.py:25-27 | every training row has a value in the target column |
| Imputer.WriteColumn | Functions.py:28 | only column `col` changes, only at masked cells. A mask inside the missing set keeps every observed cell; a mask equal to the missing set leaves the column complete |
| Imputer.Run | Functions.py:23-28 | definition, no contract: the loop `for col in cols_nan`, one `Step` per column, stopping at the first error. RunUnfolds, RunFills and RunSucceeds state its properties |
| Imputer.RunUnfolds | Functions.py:23 | one turn of the loop: a failing step ends it with that error, a successful one continues from the new frame |
| Imputer.LoopStarts | Functions.py:17-23 | before the loop the predictors are fully observed and no column of `cols_nan` is a predictor |
| Imputer.RefinesTransitive | Functions.py:28 | writes into missing cells compose |
| Imputer.RunFills | Functions.py:23-28 | the loop only fills missing cells, leaves columns outside `cols_nan` unchanged and leaves every column of `cols_nan` complete |
| Imputer.CountTrueMonotone | Functions.py:24-25 | a mask that holds wherever another holds has at least as many true entries |
| Imputer.StepGrowsTrainingRows | Functions.py:25-28 | after an iteration every previously complete row is still complete, so the next training set is a superset and never smaller |
| Imputer.RefinesKeepsCompleteRows | Functions.py:25 | filling missing cells keeps complete rows complete |
| Imputer.RunSucceeds | Functions.py:23-28 | with predictors, five complete rows and one answer per query, every iteration succeeds |
| Imputer.Impute | Functions.py:9-30 | definition, no contract: `impute_knn` as a function (split by dtype, `Run` over `cols_nan`, concatenation). ImputeKnnContract, ImputeSucceeds, AllColumnsMissingFails and TooFewCompleteRowsFails state its properties, and ImputeKnn is proved equal to it |
| Imputer.ImputeKnnContract | Functions.py:9-30 | a successful imputation keeps the row count. It outputs the numeric columns first, then the non-numeric ones unchanged. It changes no observed cell, leaves fully observed numeric columns unchanged, and leaves every numeric column complete |
| Imputer.AssembleImputed | Functions.py:30 | concatenating the filled numeric group with the untouched non-numeric group yields that promised output |
| Imputer.ImputeSucceeds | Functions.py:9-30 | imputation succeeds when nothing is missing, or when there is a predictor, at least five complete rows and one answer per query |
| Imputer.AllColumnsMissingFails | Functions.py:20-27 | when every numeric column has a missing entry, imputation fails for lack of features |
| Imputer.TooFewCompleteRowsFails | Functions.py:25-27 | when some numeric column has a missing entry and some numeric column is fully observed, but fewer than five rows are complete, imputation fails with `TooFewTrainingRows` carrying that row count |
| Imputer.ImputeKnn | Functions.py:9-30 | the loop over `cols_nan` reassigns the working frame once per column. It returns `Impute`'s result and on success meets all of `ImputeKnnContract` |
| HouseLayout.InfoLines | Classes.py:106-116 | definition, no contract: the header, the eight labelled attribute lines and the price line only when priced; the file writes of lines 123-133 use it with the other age label. ParseInfoLines, ParseInfoOnlyLayout, PriceLineOnlyWhenPriced and FileLayoutIsScreenLayout state its properties |
| HouseLayout.AfterLabel | Classes.py:107-116 | strips a label exactly when the line starts with it, and label plus result give back the line |
| HouseLayout.AfterLabels | Classes.py:107-115 | on success each line is its label followed by the value read back |
| HouseLayout.AfterLabelsOfLabelled | Classes.py:107-115 | lines made of labels and values read back as those values |
| HouseLayout.ParseInfoLines | Classes.py:106-116 | the printed lines read back as exactly the house's attributes, price included, so the layout loses nothing |
| HouseLayout.ParseInfoOnlyLayout | Classes.py:106-116 | any lines the parser accepts are exactly the layout of what it read |
| HouseLayout.PriceLineOnlyWhenPriced | Classes.py:115-116 | there are 10 lines when the house has a price and 9 otherwise, and the price line comes last |
| HouseLayout.FileLayoutIsScreenLayout | Classes.py:110-127 | the file layout is the screen layout with only the age line's label changed |
| HouseLayout.Terminated | Classes.py:123-133 | definition, no contract: each line followed by the newline that `file.write(...\n)` and `print` add. TerminatedAppend and Houses.WriteLine state its properties |
| HouseLayout.TerminatedAppend | Classes.py:123-133 | writing two groups of lines one after the other writes their concatenation |
| HouseLayout.ReplaceSpaces | Classes.py:122 | every space becomes `_`, every other character stays in place |
| HouseLayout.FileName | Classes.py:122 | definition, no contract: the address with spaces replaced by `_`, followed by `_info.txt`. FileNameShape, FileNamesCollide and TestHouseFileName state its properties |
| HouseLayout.FileNameShape | Classes.py:122 | the file name has no space, ends in `_info.txt` and keeps every non-space character of the address in place |
| HouseLayout.FileNamesCollide | Classes.py:122 | two different addresses can map to the same file name |
| HouseLayout.TestHouseFileName | test_methods.py:61 | the test house's file is `123_Test_Street_info.txt` |
| Houses.House.constructor | Classes.py:41-49 | the eight attributes are stored as given, and the price is None |
| Houses.House.Rendering | Classes.py:107-116 | definition, no contract: each attribute as the f-strings show it, through the given `render`, and the price only when it is set. PrintHouseInfo and WriteHouseInfoToFile state their output through it |
| Houses.House.RecordPrice | Classes.py:81 | the price becomes the predicted value |
| Houses.House.PrintHouseInfo | Classes.py:102-116 | the printed lines are the screen layout of this house |
| Houses.House.WriteHouseInfoToFile | Classes.py:118-133 | the file name is `FileName(address)` and the text is the file layout of this house, each line newline-terminated |
| Houses.WriteLine | Classes.py:123-133 | one write appends the line and a newline, keeping the text equal to the terminated lines written so far |
| Houses.Without | Functions.py:105 | the result holds exactly the other keys, and it keeps distinct keys distinct |
| Houses.WithoutAppend | Functions.py:105 | removing a key from two stretches one after the other removes it from each, so the remaining keys keep their relative order |
| Houses.WithoutInPlace | Functions.py:105 | deleting a key that occurs once takes it out of its place: the keys before and after it close up |
| Houses.DistinctCount | Classes.py:98-100 | distinct keys listing a set are exactly as many as the set |
| Houses.WithoutAbsent | Functions.py:104-108 | removing an absent key changes nothing |
| Houses.Registry.constructor | Classes.py:25 | the registry starts empty |
| Houses.Registry.NewHouse | Classes.py:27-52 | creates a fresh house with the given attributes and no price. It is stored under its address, replacing any earlier entry. A new key goes last in iteration order; an existing key keeps its place |
| Houses.Registry.Get | Functions.py:82 | `House.instances.get(address)` (also at lines 89 and 118): a lookup finds the house exactly when the address is registered, and that house carries the address |
| Houses.Registry.Delete | Functions.py:104-105 | removes only the given address, from both the map and the iteration order. An absent address changes nothing |
| Houses.Registry.PrintAllAddresses | Classes.py:93-100 | prints the header followed by every registered address once, in insertion order |
| Houses.TestRegistry | test_methods.py:28-31 | two houses stored one after the other give a valid registry whose iteration order is those two addresses |
| Houses.PrintAllAddressesOfTestRegistry | test_methods.py:26-37 | two registered houses print as the header and both addresses |
| Menu.DeleteHouse | Functions.py:99-109 | a registered address is removed and reported as deleted. Otherwise "House not found." is printed and the registry is unchanged |
| Menu.ShowHouseInfo | Functions.py:71-97 | HERE prints the house's lines. TEXT writes its file and prints the confirmation. An unregistered address prints "House not found for this address."; any other choice prints "Invalid input." A file is written only for TEXT with a registered address |
| Menu.EstimatePrice | Functions.py:111-123 | a registered house gets the predicted price recorded; otherwise the not-found message is printed |

## Left out

- The K-nearest-neighbours regressor (`KNeighborsRegressor(n_neighbors=5)`, its distances and float averaging) is a function parameter `predict`. Only its input and output shapes are modelled.
- pandas dtype inference behind `select_dtypes`: each column carries a given `isNumeric` flag.
- Imputer.Step: when `cols_no_nan` is empty and there are also fewer than five complete rows, scikit-learn could raise either error first. The model reports `NoFeatureColumns`; which one the library raises first is not in the repository.
- Frames.ColsNoNan: always sorted by label. Recent pandas skips that sort in `Index.difference` when `cols_nan` is empty, leaving frame order; the loop then never runs, so no output differs.
- Imputer.Impute: requires distinct labels across the whole frame. `df[col]` on line 28 selects by label in the whole frame, so a duplicate label, even between a numeric and a non-numeric column, changes what is selected and written. That case is not modelled.
- `predict_house_price` (reading `final_data.csv`, linear regression, plotting) is not part of this model. Menu.EstimatePrice takes the predicted value as a parameter and models only the assignment `self.house_price = predicted_value[0]`.
- The interactive menu (`house_wrapper`, `go_back`, `add_new_house`, `quit_function`, `input()` prompts, re-entry, `display(Image(...))`): the address and the HERE/TEXT choice are parameters. `upper()` is left out; its result is the `Destination` parameter.
- Real I/O: printed lines are returned as a sequence of lines, and a written file as its name and text. Creating a file that already exists, and file-system errors, are not modelled.
- Houses.House: the eight attributes are immutable after construction, since nothing in the core reassigns them. Only the price is a mutable field.
- Float and int rendering (`str()` of a number) is the parameter `render`.
- test_print_house_info compares the exact printed text. The model proves that text equals the layout of the test house's attributes in general (Houses.House.PrintHouseInfo), not for the concrete strings.
- test_write_house_info_to_file expects a final `House Price: 300000` line for a house whose price was never set. The code writes no price line for such a house (HouseLayout.PriceLineOnlyWhenPriced), so that expectation is not modelled.
