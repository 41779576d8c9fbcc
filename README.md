# Book recommender: a verified Dafny model

This project models the data pipeline of an item-based book recommender.
The pipeline has four stages:

1. **Record cleaning.**
   - Publication years that are not numbers, lie after the current year or lie before 1800 become absent.
   - Book rows missing a title, author, year or publisher are dropped.
   - Ages outside 5..100 become absent.
   - A rating is kept only if it references a cleaned book and its value is in 0..10.
2. **Single-pass support filter.** First keep the ratings of users with at least 50 ratings. Then, counting within that intermediate set, keep the ratings of books with at least 50 ratings. The pass is not repeated.
3. **Pivot and similarity.** Build a pivot with one row per ISBN and one column per user, where each cell is the mean of that pair's ratings or 0. The rows are compared by cosine similarity, as scikit-learn computes it.
4. **Top-N recommendation.**
   - Sort the queried ISBN's similarity column in descending order, drop the query and keep the first N.
   - Resolve each ISBN to the first book row that carries it, giving a title or a title plus image URL.
   - Build the app's title→ISBN map.

`BooksRecommender.py` (database input) and `BooksRecommender_local.py` (CSV input) run the same pipeline, and one model serves both. The files differ in these ways:

- **Input.** `BooksRecommender.py` reads the tables from PostgreSQL. `BooksRecommender_local.py` reads CSV files.
- **Column names.** A few differ in casing (`isbn`/`ISBN`, `age`/`Age`, `publisher`/`Publisher`).
- **The sampled example.** Only `BooksRecommender.py` samples a query ISBN and calls `recommend_books` on the cleaned books (lines 141-148). `Pipeline.ScriptRecommendationSucceeds` is about that call, so it applies to `BooksRecommender.py` alone.
- **Display expressions.** Only `BooksRecommender.py` has the bare display expressions at lines 50, 61, 77, 95 and 113.

The table below cites `BooksRecommender.py`. The shared code sits in `BooksRecommender_local.py` at these lines:

| `BooksRecommender.py` | `BooksRecommender_local.py` |
|---|---|
| 38-42 | 27-31 |
| 48 | 37 |
| 56 | 43 |
| 67-71 | 50-54 |
| 83-92 | 63-72 |
| 104-110 | 75-81 |
| 118-139 | 83-104 |
| 150-172 | 106-128 |
| 178-180 | 134-136 |

Modules, in pipeline order:

- `Wrappers`: `Option` and `Result`.
- `Seqs`: order-preserving filtering and pandas' `head`.
- `Keys`: the sorted distinct keys of `pivot_table`.
- `Records`: the table rows.
- `Cleaning`.
- `Support`.
- `Pivoting`.
- `Similarity`.
- `Recommender`: the four lookup and recommendation functions and the title map.
- `Pipeline`: the script end to end, plus the lemmas that connect the stages.

How the model represents the data:

- **Tables** are sequences of row records, in row order.
- **The year and age columns** are rewritten in place in the source. Here they are methods over arrays of rows.
- **The two reassigned selections** (rating cleaning and the support filter) are methods. Each is proved equal to a one-pass specification function.
- **Lookups** raise exceptions in the source. Here they return `Result`: `KeyError(isbn)` for an ISBN outside the matrix, `IndexError` for an ISBN with no book row.

## Model

| member | source | states |
|---|---|---|
| Cleaning.NormalisedYear | BooksRecommender.py:38-42 | a year survives exactly when it is numeric and within 1800..current year, and then it is unchanged; every other value becomes absent |
| Cleaning.NormalisedYears | BooksRecommender.py:42 | the row count is unchanged and only the year column of each row changes |
| Cleaning.NormaliseYears | BooksRecommender.py:38-42 | the in-place overwrite of the year column leaves the table equal to the normalised table |
| Cleaning.CleanBooks | BooksRecommender.py:48 | the cleaned books are exactly the rows whose title, author, year and publisher are all non-null, with their multiplicities, as a subsequence of the input in its original order |
| Cleaning.CleanedBooksAreValid | BooksRecommender.py:38-48 | after normalisation and cleaning, every book has title, author and publisher, and a numeric year within 1800..current year |
| Cleaning.NormalisedAge | BooksRecommender.py:56 | an age is kept exactly when it is present and within 5..100; any other value, including a missing one, becomes absent |
| Cleaning.NormaliseAges | BooksRecommender.py:56 | every user row keeps its id and gets its normalised age; the number of user rows is unchanged |
| Cleaning.IsbnSet | BooksRecommender.py:67 | the set `isin` tests against is exactly the ISBN column of the cleaned books |
| Cleaning.CleanedRatings | BooksRecommender.py:67-71 | the cleaned ratings are exactly the ratings whose ISBN occurs among the cleaned books and whose value is within 0..10, with their multiplicities, as an order-preserving subsequence |
| Cleaning.CleanRatings | BooksRecommender.py:67-71 | the two successive selections (ISBN reference, then rating scale) give the cleaned ratings |
| Support.ActiveUserRatings | BooksRecommender.py:83-86 | a rating is kept exactly when its user has at least the threshold number of ratings; a kept rating keeps its multiplicity, and the result is an order-preserving subsequence, so the book step counts the ratings it actually sees |
| Support.SupportFiltered | BooksRecommender.py:83-92 | a rating is kept exactly when its user has at least the threshold number of ratings in the cleaned set and its ISBN has at least the threshold number of ratings among the active users' ratings; multiplicities and order are kept |
| Support.SupportFilter | BooksRecommender.py:83-92 | the user selection followed by the book selection, each counted on its own input, equals the specification with threshold 50 |
| Support.SupportFilteredIsTwoStep | BooksRecommender.py:86-92 | the filter is the book step applied to the output of the user step |
| Support.FilteredBooksKeepSupport | BooksRecommender.py:89-92 | every ISBN that survives has, in the output, the full count it had among the active users' ratings, which is at least the threshold |
| Support.AllUsersActive | BooksRecommender.py:83-86 | when every user meets the threshold, the user step keeps the whole table |
| Support.SupportFilterIsNotFixedPoint | BooksRecommender.py:83-92 | a concrete table where a user meets the threshold, keeps fewer ratings than the threshold after the pass, and a second pass would remove everything |
| Keys.StrLess | BooksRecommender.py:104 | Python's `<` on the ISBN strings that `pivot_table` sorts: after the common prefix, either `a` has ended while `b` goes on, or `a`'s next code point is smaller |
| Keys.SortedKeys | BooksRecommender.py:104 | the pivot keys are strictly increasing and are exactly the keys that occur in the input |
| Pivoting.IsbnColumn | BooksRecommender.py:104 | the ISBNs listed are exactly those of some filtered rating |
| Pivoting.UserColumn | BooksRecommender.py:104 | the users listed are exactly those of some filtered rating |
| Pivoting.PairValues | BooksRecommender.py:104 | every value grouped for an (ISBN, user) pair comes from a rating of that pair, and the group is empty exactly when the pair has no rating |
| Pivoting.PairValuesComplete | BooksRecommender.py:104 | each value occurs in the group as many times as the pair has ratings with that value, so the cell, `Sum(vs) / \|vs\|`, is the mean of all the pair's ratings (`aggfunc='mean'`) |
| Pivoting.ExampleMeanOfTwo | BooksRecommender.py:104 | a pair rated 4 and 6 has cell 5 |
| Pivoting.CellValue | BooksRecommender.py:104 | a pair without ratings has cell 0 (`fillna(0)`) |
| Pivoting.CellWithinScale | BooksRecommender.py:104 | when every rating is within lo..hi and 0 is in that range, every cell (mean or 0) is within lo..hi |
| Pivoting.CellOfSingleRating | BooksRecommender.py:104 | the cell of a pair with a single rating is that rating |
| Pivoting.BuildPivot | BooksRecommender.py:104 | the rows are the distinct ISBNs in increasing code-point order, the columns are the distinct users in increasing order, and each cell is the mean rating of its pair or 0 |
| Similarity.SafeNorm | BooksRecommender.py:107 | the norm divided by is 1 when the Euclidean norm is 0 and is the Euclidean norm otherwise, so it is never 0, and it is positive when the square root is non-negative |
| Similarity.Cosine | BooksRecommender.py:107 | an all-zero row on either side gives similarity 0, not an undefined value |
| Similarity.BuildSimilarity | BooksRecommender.py:107-110 | the matrix is square, uses the pivot's ISBN order on both axes, and each cell is the cosine of the two rows with a zero norm replaced by 1 |
| Similarity.DotSelfZero | BooksRecommender.py:107 | a row's dot product with itself is non-negative, and zero exactly when every entry is zero |
| Similarity.SimilaritySymmetric | BooksRecommender.py:107-110 | sim(i, j) equals sim(j, i) |
| Similarity.EqualRowsFullySimilar | BooksRecommender.py:107 | two equal rows with a non-zero entry have similarity 1 |
| Similarity.SelfSimilarity | BooksRecommender.py:107 | the diagonal is 1 for a row with a non-zero entry and 0 for an all-zero row |
| Similarity.SimilarityNonNegative | BooksRecommender.py:107 | rows without negative entries have non-negative similarity |
| Recommender.IndexOf | BooksRecommender.py:128 | the position found holds the ISBN, and no earlier position does |
| Recommender.Column | BooksRecommender.py:128 | selecting the column of an ISBN raises KeyError exactly when the ISBN is not in the matrix index; otherwise one entry per index ISBN, in index order |
| Recommender.ColumnScores | BooksRecommender.py:110-128 | each column entry carries its ISBN's similarity to the query, as the matrix records it |
| Recommender.SortDescending | BooksRecommender.py:128 | the sorted column is in non-increasing similarity order and is a permutation of the column |
| Seqs.Head | BooksRecommender.py:134 | `head(n)` keeps min(n, length) leading entries for n >= 0 and drops the last -n for n < 0 |
| Recommender.TopN | BooksRecommender.py:131-134 | every kept entry comes from the sorted column and is not the query, and a descending column gives a descending result |
| Recommender.TopSimilar | BooksRecommender.py:128-134 | the ISBN list fails with KeyError(q) exactly when q is not in the matrix |
| Recommender.TopSimilarExcludesQuery | BooksRecommender.py:131 | the queried ISBN is never recommended, and every recommended ISBN is in the matrix |
| Recommender.TopSimilarLength | BooksRecommender.py:134 | min(N, matrix size - 1) results for N >= 0, and pandas' negative-`head` length otherwise |
| Recommender.TopSimilarDescending | BooksRecommender.py:128-134 | similarity to the query does not increase along the result |
| Recommender.TopSimilarIsTopN | BooksRecommender.py:128-134 | any other ISBN left out has similarity at most that of every recommended ISBN |
| Recommender.TopSimilarDistinct | BooksRecommender.py:128-134 | no ISBN is recommended twice, since the column lists each index ISBN once and sorting, dropping the query and `head` keep or drop entries without repeating them; with the length and dominance lemmas this makes the result a true top N of the other ISBNs |
| Recommender.FirstRow | BooksRecommender.py:120 | the row found is the first with that ISBN, and none is found exactly when no row has it |
| Recommender.BookTitle | BooksRecommender.py:118-121 | the title of the first row with the ISBN, or IndexError exactly when there is no such row |
| Recommender.BookInfoOf | BooksRecommender.py:150-153 | title and image URL of the first row with the ISBN, or IndexError exactly when there is no such row |
| Recommender.LookupAll | BooksRecommender.py:137 | the list comprehension succeeds exactly when every lookup does, giving the results in order; otherwise it gives the error of the first failing lookup |
| Recommender.RecommendBooks | BooksRecommender.py:123-139 | KeyError(q) for an ISBN outside the matrix; otherwise success exactly when every recommended ISBN has a book row (else IndexError), with the first-row titles in ranking order |
| Recommender.RecommendBooksWithImages | BooksRecommender.py:155-172 | as for recommend_books, with the first row's title and image URL for each recommended ISBN |
| Recommender.RowsInIndex | BooksRecommender.py:178-179 | the filtered book rows are exactly the rows whose ISBN is in the matrix index, each with its multiplicity, as an order-preserving subsequence of the table, so first-row lookups and last-row-wins refer to the original row order |
| Recommender.TitleToIsbn | BooksRecommender.py:180 | every row's title is a key, and every key maps to the ISBN of a row carrying that title |
| Recommender.TitleToIsbnLastWins | BooksRecommender.py:180 | for a repeated title, the last row carrying it gives the ISBN |
| Recommender.AppLookupsSucceed | BooksRecommender.py:178-193 | when every matrix ISBN has a book row, a title from the map resolves to a matrix ISBN whose info lookup and recommendations raise nothing |
| Pipeline.BuildRecommender | BooksRecommender.py:38-110 | the script's statements in order: the year and age columns are overwritten in place, and the cleaned books, cleaned ratings, filtered ratings (threshold 50), pivot and matrix equal their specifications |
| Pipeline.MatrixWellFormed | BooksRecommender.py:104-110 | the matrix index is strictly increasing, so each ISBN occurs once, and the matrix is square |
| Pipeline.MatrixIsbnsAreCleanAndSupported | BooksRecommender.py:67-104 | every matrix ISBN has a cleaned book row and a row in the year-normalised table, and has at least 50 ratings from active users |
| Pipeline.MatrixNonNegative | BooksRecommender.py:71-107 | with a non-negative square root, every similarity is non-negative, because ratings lie within 0..10 |
| Pipeline.ScriptRecommendationSucceeds | BooksRecommender.py:146 | the script's call on the cleaned books raises nothing for any ISBN of the matrix |
| Pipeline.AppNeverRaises | BooksRecommender.py:177-203 | in the app, every offered title resolves to a matrix ISBN whose info lookup and recommendations raise nothing, so the `except KeyError` branch is never taken |

## Behaviour worth noting

- **Empty strings.** A book row is dropped only when a required column is null. Empty strings are not tested for.
- **All-zero rows.** scikit-learn divides by the norm with zero replaced by 1. A pivot row that is all zero therefore has self-similarity 0, not 1 (`Similarity.SelfSimilarity`). This happens when a book's surviving ratings are all 0, which the 0..10 scale allows.
- **Ties.** `sort_values` uses pandas' default, non-stable sort, so the order among tied similarities is not fixed. The top-N lemmas use only that the sorted column is a descending permutation.
- **Errors.** The code checks neither for an unreachable data source nor for a filtered set too small to compare. The model's lookups raise only pandas' KeyError and IndexError. scikit-learn's ValueError on an empty pivot is not modelled (see "## Left out").
- **The app's book table.** The title→ISBN map and the app's lookups use the year-normalised books table restricted to matrix ISBNs, not the cleaned books.

## Left out

- **Loading.** Reading the tables from PostgreSQL or CSV, and the `try/except` around the load, are I/O. The three tables are inputs.
- **The current year.** It comes from the clock and is a parameter `currentYear`.
- **Year coercion.** `pd.to_numeric(errors='coerce')` is modelled on a raw cell that is missing, an integer or non-numeric (`YearCell`). Fractional years and pandas' dtype rules are not modelled.
- **Numbers.**
  - Ages and rating values are integers. A null rating value is not modelled: it fails both range comparisons and would be dropped.
  - Pivot cells and similarities are exact `real`s, not floats.
- **Similarity.BuildSimilarity:** the square root is a parameter. Properties that need it assume only that it is a square root (`IsSqrt`), or only that it is non-negative. scikit-learn's floating-point results are not claimed. When the support filter leaves no rating, the pivot is empty and `cosine_similarity` raises ValueError (it demands at least one sample). The model instead builds an empty matrix, for which every lookup is a KeyError.
- **Support.SupportFilterIsNotFixedPoint:** the witness uses threshold 2 on a four-rating table, not threshold 50. The filter functions take the threshold as a parameter, and the script's value 50 is used in `Pipeline`.
- **Recommender.TitleToIsbn:** missing titles are one key (`None`). Python's handling of NaN dictionary keys is not modelled.
- **Recommender.WellFormed:** the recommender lemmas assume a square matrix whose index holds each ISBN once. `Pipeline.MatrixWellFormed` proves this for the matrix the pipeline builds. A matrix with duplicate index entries, for which pandas returns a frame instead of a column, is not modelled.
- **Pandas indexes.** Row index labels are represented only by positions in the sequence.
- **The random example.** The `sample()` query and its printout are randomness and display.
- **Diagnostics.** The missing-value counts, `shape` and `head()` displays are not used downstream.
- **The Streamlit UI.** Title, select box, button, images and columns are display code. Only the title map and the calls it makes are modelled.
- **The users table.** Its cleaning is modelled, but nothing downstream reads it, in the source as in the model.
