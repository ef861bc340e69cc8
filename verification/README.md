# Contributed modules: models and proofs

Dafny 4.11 models of seven contributed modules of a PostgreSQL fork, with proofs of what they are
for. `dafny verify dfyconfig.toml` checks the whole project.

| file | component |
|---|---|
| `TimeTravel.dfy` | the `timetravel` trigger of `contrib/spi`: versioned history over whole runs of statements |
| `IntSets.dfy`, `IntCompress.dfy`, `IntArray.dfy` | `contrib/intarray`: sets in sorted arrays, the range compressor of index keys, the index |
| `BoolQuery.dfy`, `BoolInput.dfy` | the boolean query compiler and evaluator that `contrib/intarray` and `contrib/ltree` share in two layouts (`up` tells them apart: `false` for intarray, `true` for ltxtquery) |
| `Gist.dfy` | search trees of any height in the way the index access method uses the support functions, and when a pruned search equals a scan |
| `LtreeOrder.dfy`, `LqueryOp.dfy`, `LtreeGist.dfy` | `contrib/ltree`: the order of paths, the pattern matcher, the index |
| `LtreeIO.dfy`, `LqueryIO.dfy`, `LqueryStore.dfy` | `contrib/ltree`: parsers and printers of paths and patterns, and the 16-bit fields of stored patterns |
| `Crosstab.dfy`, `Connectby.dfy` | `contrib/tablefunc`: the generator that is called again and again, and the recursive walk |
| `Levenshtein.dfy` | `contrib/fuzzystrmatch`: edit distance |
| `Blocks.dfy`, `Sha1.dfy`, `Md5.dfy`, `Hmac.dfy` | `contrib/pgcrypto`: digests taken in by chunks, and keyed digests |
| `Blowfish.dfy`, `Cbc.dfy`, `Combo.dfy` | `contrib/pgcrypto`: the block cipher, its modes in place, and padded encryption |
| `Wrappers.dfy` | values that may be missing |

What changes state in the source changes state here: triggers, contexts and paths whose level count
is overwritten are classes, buffers are arrays, and loops are loops. Each such method is tied to a
function of its inputs or its old state, and the lemmas are about those functions. Errors raised by
the source are results. Text is a sequence of characters; a machine integer is an `int` with its
wrap-around written out, or a bit vector.

## Where the code does not keep the promise

Each of these is stated as an exact condition beside a concrete failing input or family.

- A boolean query with a parenthesis under two or more pending operators that is not the last of its
  group is not compiled to its postfix form (`BoolQuery.MakePolIsPostfix`), and often to something
  else (`BoolQuery.UntidyQueryIsMisread`). The condition is about the postfix form: `1 & !(2) & 3`
  comes out in another order that means the same. `!!(x)|y` leaves items that are never looked at
  and means `!y` (`BoolInput.DoubleNegationIsLost`).
- A link over a right operand of 32768 items does not fit the 16-bit `left` field. The evaluation of
  `x|(y|y|...|y)` with 16384 to 32766 bars inside leaves the array, and with 32767 bars it does not
  end (`BoolQuery.LinksAreRightExactly`, `BoolQuery.CompiledIsLinked`,
  `BoolInput.LongQueryIsMislinked`).
- A contained-by search in an intarray index misses the array `{}` below a key that shares nothing
  with the query (`IntArray.ContainedBySearchIsScanExactly`, `IntArray.EmptyArrayIsMissed`).
- An intarray index can miss rows for the query `{}` under contains and for equality with an array
  without elements (`IntArray.RecheckIsEnoughExactly`).
- A boolean search in an intarray index returns the one-dimensional array without elements if the
  query holds of no elements, and the operator does not (`IntArray.IndexSearchIsScan`,
  `IntArray.VoidArrayIsReturned`).
- A compressed index key that contains the largest 32-bit integer cannot be unpacked
  (`IntCompress.RoundTripIsSuperset`).
- A compressed key that stands for 2^31 elements or more is counted wrongly, and one whose size in
  bytes is 2^32 and a little more is unpacked into an array that is too small
  (`IntCompress.InternalSize`, `IntCompress.AllocationExactly`, `IntCompress.WideKeyOverruns`).
- The comparison of paths overflows for a path that runs more than 14653 levels beyond its prefix
  (`LtreeOrder.CompareIsOrdExactly`, `LtreeOrder.DeepPathsCompareWrongly`); an index page that holds
  such a path and that prefix loses the prefix (`LtreeGist.IndexSearchIsScanExactly`,
  `LtreeGist.FirstLostDepth`).
- A path of 65536 levels or more is cut when it is read (`LtreeIO.InputIsKeptExactly`).
- A pattern with a level of 65536 alternatives, or with a level of 64 KB before another one, is not
  stored as it was written (`LqueryIO.ParseUndoesPrint`, `LqueryIO.ManyAlternativesAreLost`,
  `LqueryIO.LongLevelIsOverwritten`).
- The buffer a pattern is printed into is sized for its last level only (`LqueryIO.OutFitsExactly`,
  `LqueryIO.LongFirstLevelOverruns`).
- A same-tick delete fails (`TimeTravel.ScanFails`).
- `crosstab` into a type without value columns returns nothing (`Crosstab.PromiseKeptExactly`).
- `connectby` takes a key that contains the delimiter for one on the branch
  (`Connectby.TestIsRightExactly`).
- MD5 counts a chunk of 2^29 bytes or more wrongly (`Md5.CountIsRightExactly`, `Md5.OneCall`), and does not
  come back from one of almost 2^32 bytes (`Md5.Context.Loop`).
- Decryption with padding looks for the last byte of an empty result outside the buffer, at place
  2^32 - 1; whatever is there, the result is right (`Combo.Decrypt`). With blocks of more than 255
  bytes the length of the padding may not fit the byte that holds it (`Combo.UnpadUndoesPad`).
- HMAC writes the digest of a long key past its buffer if the digest is longer than a block, which
  MD5 and SHA-1 are not (`Hmac.Context.Init`).

## Model

| member | source | states |
|---|---|---|
| `TimeTravel.FireInsert` | contrib/spi/timetravel.c:137-179 | missing dates of an inserted tuple become the current time and infinity, and a tuple that would not start before it stops is refused |
| `TimeTravel.FormVersion` | contrib/spi/timetravel.c:224-247 | the version inserted beside a changed row is the new tuple dated from now to infinity, or the deleted tuple closed now |
| `TimeTravel.Relation.FireRow` | contrib/spi/timetravel.c:181-325 | one row of an UPDATE or DELETE: the reply to the executor and the version inserted through the nested trigger call, for every outcome including the errors and the skipped closed versions |
| `TimeTravel.Relation.ChangeRow` | contrib/spi/timetravel.c:193-325 | the heap after the executor has acted on that reply |
| `TimeTravel.Relation.Execute` | contrib/spi/timetravel.c:181-325 | a whole statement over the rows that exist when it starts; a failing one leaves the heap alone |
| `TimeTravel.StatementEffect` | contrib/spi/timetravel.c:181-325 | a statement changes the live rows as it would change a table without history, keeps every earlier instant, and never touches a closed version |
| `TimeTravel.ScanFails` | contrib/spi/timetravel.c:164-170 | a statement fails exactly if it deletes a live row that started in the current tick or later |
| `TimeTravel.LiveRowsArePlainRows` | contrib/spi/timetravel.c:137-325 | after every run with a non-decreasing clock the versions that stop at infinity are exactly the rows of a plain table under the same statements |
| `TimeTravel.TimeTravelIsFaithful` | contrib/spi/timetravel.c:137-325 | after every such run, for every past instant t the versions with start <= t < stop are exactly the rows of the plain table at the end of t |
| `TimeTravel.ClosedVersionsNeverChange` | contrib/spi/timetravel.c:189-216 | a version that was closed at any point of a run is still there unchanged at its end |
| `BoolQuery.PopRun` | contrib/intarray/_int.c:1754-1818 | the loops that pop operators emit exactly the run of not and and operators on top, or the whole stack |
| `BoolQuery.RunMakePol` | contrib/intarray/_int.c:1754-1818 | the recursive compiler with its own stack per parenthesis computes the specified output on every token stream |
| `BoolQuery.MakePolIsPostfix` | contrib/intarray/_int.c:1754-1818 | the output is the postfix form under the precedence of not over and over or if and only if the query is tidy and fits the stack; a tidy query that does not fit is refused |
| `BoolQuery.UntidyQueryIsMisread` | contrib/intarray/_int.c:1775-1795 | for all values, x and not (y) or z is compiled to the postfix form of (x or not y) and z |
| `BoolQuery.FindOprnd` | contrib/intarray/_int.c:1958-1986 | the recursion ends having used up exactly the subexpression, writes the right links, and changes nothing else |
| `BoolQuery.CopyAndLink` | contrib/ltree/ltxtquery_io.c:285-345 | items that end in the postfix form of an expression, copied in order (intarray) or reversed (ltxtquery) and linked, represent that expression at the place where evaluation starts |
| `BoolQuery.LinksAreRightExactly` | contrib/intarray/_int.c:1958-1986 | the link of every operator is the true distance to its left operand if and only if each of these distances fits 16 bits |
| `BoolQuery.CompiledIsLinked` | contrib/ltree/ltxtquery_io.c:255-283 | every link of a compiled query stays inside the array and points in the right direction, so that evaluation ends, if and only if each 16-bit distance does |
| `BoolQuery.LinkedIsReached` | contrib/ltree/ltxtquery_op.c:15-44 | if so, evaluation from any item stays inside the array and ends |
| `BoolQuery.LaidIsReached` | contrib/intarray/_int.c:1860-1887 | whatever the search for operands has linked can be evaluated if no link has the wrong sign, whether or not the links fit and whatever lies unused around it |
| `BoolInput.Compile` | contrib/intarray/_int.c:1992-2050 | every query, tidy or not, is refused only for its depth; otherwise linking stays inside the array and lays out some expression, which for a tidy query is its meaning, and which can be evaluated if no link has the wrong sign |
| `BoolInput.OutputBalances` | contrib/intarray/_int.c:1754-1818 | the output for every query that is not too deep has one value more than binary operators |
| `BoolInput.LastOperand` | contrib/intarray/_int.c:1958-1986 | whatever has that balance ends in the postfix form of some expression, so the search for operands finds one |
| `BoolInput.LongOperandIsMislinked` | contrib/intarray/_int.c:1979-1983 | over a right operand of 32768 to 65534 items the link leads out of the array, and over one of 65535 back to the operator itself |
| `BoolInput.LongQueryIsMislinked` | contrib/intarray/_int.c:1992-2050 | a family of accepted queries whose evaluation leaves the array, or for the longest of them does not end |
| `BoolInput.DoubleNegationIsLost` | contrib/intarray/_int.c:1775-1795 | for all values, !!(x) or y is compiled to five items of which only the last two, for not y, are linked |
| `BoolQuery.ExecuteIsTruth` | contrib/intarray/_int.c:1860-1887 | with right links evaluation ends and is the truth value with negation on, and the over-approximation with negation off |
| `BoolQuery.ExecuteIsSound` | contrib/intarray/_int.c:1860-1887 | for every array that can be evaluated, whatever it means, evaluation without negation over more values accepts whatever evaluation with negation accepts over fewer |
| `BoolQuery.ExecuteIsPointwise` | contrib/intarray/_int.c:1860-1887 | evaluation depends on which values hold and on nothing else |
| `BoolQuery.PossibleIsSound` | contrib/ltree/ltxtquery_op.c:15-44 | the over-approximation over more values accepts whatever holds over fewer |
| `BoolQuery.CompiledQueryIsRight` | contrib/intarray/_int.c:1902-1914 | of whatever was laid out, the links are right if and only if they fit; if so, evaluation equals its meaning; if no link has the wrong sign, what holds for a row is not rejected for a key that covers it |
| `IntSets.BubblePass` | contrib/intarray/_int.c:882-911 | a pass permutes, settles one more element, and reports swaps and equal neighbours |
| `IntSets.ISort` | contrib/intarray/_int.c:882-911 | the sort ends on every array with a sorted permutation and returns true exactly if the array has duplicates |
| `IntSets.Unique` | contrib/intarray/_int.c:973-988 | in-place removal of duplicates leaves a strictly increasing prefix with the same elements |
| `IntSets.Prepare` | contrib/intarray/_int.c:57-62 | sorting and then removing duplicates only if some were reported always gives the strictly increasing array of the same set |
| `IntSets.Merge` | contrib/intarray/_int.c:749-799 | the merge of two sorted arrays is sorted and holds the union |
| `IntSets.ContainsAll` | contrib/intarray/_int.c:572-609 | the merge loop decides set inclusion |
| `IntSets.Overlaps` | contrib/intarray/_int.c:693-725 | the merge loop decides whether two sets share an element |
| `IntSets.Find` | contrib/intarray/_int.c:1829-1849 | the bisection decides membership in a sorted array |
| `IntCompress.SomeGapIsSmall` | contrib/intarray/_int.c:403-414 | of any three gaps between four ranges one is below the value the search starts from, although the difference wraps in 32 bits |
| `IntCompress.SmallestGap` | contrib/intarray/_int.c:405-411 | the search finds a gap of smallest computed width |
| `IntCompress.Join` | contrib/intarray/_int.c:412-413 | the move closes that gap and keeps everything else |
| `IntCompress.Double` | contrib/intarray/_int.c:394-399 | copying each element in place to two positions, from the end, makes one range per element |
| `IntCompress.Compress` | contrib/intarray/_int.c:382-424 | a key of fewer than 200 elements is unchanged; a longer one becomes exactly 100 ranges that cover it, reached from one range per element by closing a smallest gap at a time |
| `IntCompress.ExpandIsCovered` | contrib/intarray/_int.c:467-470 | what the ranges stand for is strictly increasing and exactly what they cover |
| `IntCompress.InternalSize` | contrib/intarray/_int.c:959-970 | the size computed in 32 bits is the number of elements unpacked modulo 2^32, and right if and only if there are fewer than 2^31 |
| `IntCompress.FillRange` | contrib/intarray/_int.c:467-470 | one range is appended element by element |
| `IntCompress.AllocationExactly` | contrib/intarray/_int.c:913-970 | exactly when the wrapped request is refused, when it is large enough, and when it is granted and too small |
| `IntCompress.WideKeyOverruns` | contrib/intarray/_int.c:394-479 | however the smallest gaps are chosen, the compressor turns a certain key of 200 elements into 100 ranges that stand for 2^30 + 76 elements, for which 328 bytes are asked for instead of 2^32 and 328 |
| `IntCompress.CompressWide` | contrib/intarray/_int.c:382-479 | compressing that key and unpacking it overruns the array |
| `IntCompress.Decompress` | contrib/intarray/_int.c:441-479 | unpacking gives exactly what the ranges stand for, or one of three failures: the request is refused, the array is too small for what is written, or a range ends at the largest integer |
| `IntCompress.RoundTripIsSuperset` | contrib/intarray/_int.c:390-470 | decompress after compress is a strictly increasing superset, the identity below 200 elements, and otherwise comes back exactly if its true size is granted and the key does not contain the largest integer |
| `IntArray.InnerUnion` | contrib/intarray/_int.c:749-799 | the union is strictly increasing and exact, for void operands too, and an empty one is void if and only if both operands are void or neither is |
| `IntArray.CommonUnion` | contrib/intarray/_int.c:1326-1349 | the key of a page is exactly the union of its entries |
| `IntArray.PickSeeds` | contrib/intarray/_int.c:1459-1504 | the seeds are a pair of greatest waste, or 1 and 2 |
| `IntArray.PickSplit` | contrib/intarray/_int.c:1454-1606 | every offset goes to exactly one side, neither side is empty, each datum covers every key of its side, and together they hold just the elements of the page |
| `IntArray.RunQuery` | contrib/intarray/_int.c:1860-1914 | evaluation with bisection equals evaluation with set membership |
| `IntArray.RunOperator` | contrib/intarray/_int.c:542-700 | the operator functions with their special cases for void arrays; equality is `_int_same`, although the operator class uses the built-in `=` because the declaration of that operator is commented out |
| `IntArray.GConsistent` | contrib/intarray/_int.c:289-343 | the consistency check for all five strategies on leaf and internal keys |
| `IntArray.LeafKey` | contrib/intarray/_int.c:370-380 | the leaf key of a row is its prepared form |
| `IntArray.PageKeyCovers` | contrib/intarray/_int.c:345-425 | a page key made by union and compression covers all rows below it, so trees built this way keep the cover invariant |
| `IntArray.UnionKey` | contrib/intarray/_int.c:345-425 | what union and compression make of the unpacked keys of a page is a page key above them |
| `IntArray.SideKey` | contrib/intarray/_int.c:1454-1606 | so is what a split and compression make of the keys of one side |
| `IntArray.BuiltIsKeyed` | contrib/intarray/_int.c:345-425 | every tree built from leaf keys and page keys, of any height, keeps the cover invariant |
| `IntArray.CoverIsConsistent` | contrib/intarray/_int.c:289-343 | a key above a row that the leaf check accepts is consistent with the query, unless the query is `{}` for contains or has no elements for equality, or the row is `{}` for contained-by |
| `IntArray.LeafCheckIs` | contrib/intarray/_int.c:289-343 | on a leaf page the check accepts exactly the rows with the same set of elements for equality, those the query holds of for a boolean query, and those the operator accepts for the rest |
| `IntArray.SearchIsLeafScan` | contrib/intarray/_int.c:289-343 | for every tree of any height the pruned search returns exactly a scan with the leaf check, in the same order |
| `IntArray.IndexSearchIsScan` | contrib/intarray/_int.c:289-343 | the rechecked search equals the scan with the operator, and the search alone does if and only if the table holds no row on which check and operator part: same set and other multiplicities for equality, the void array for a boolean query that holds of no elements, none for overlap and contains |
| `IntArray.VoidArrayIsReturned` | contrib/intarray/_int.c:1889-1914 | the index returns the void array for a negated value and the operator does not |
| `IntArray.RecheckIsEnoughExactly` | contrib/intarray/_int.c:289-343 | apart from contained-by the rechecked search of every tree that can be built is the scan if and only if the query is not `{}` for contains, nor an array without elements for equality |
| `IntArray.ContainedBySearchIsScanExactly` | contrib/intarray/_int.c:331-338 | for every array a contained-by search equals the scan if and only if the query is void or no key disjoint from it hides `{}` |
| `IntArray.EmptyArrayIsMissed` | contrib/intarray/_int.c:331-338 | a tree of the kind the code builds in which `{}` is missed |
| `LtreeOrder.LtreeCompare` | contrib/ltree/ltree_op.c:41-67 | the loop computes the specified 32-bit value |
| `LtreeOrder.PathOrdIsTotal` | contrib/ltree/ltree_op.c:41-67 | the order of paths is antisymmetric and total, with zero for equal paths only |
| `LtreeOrder.PathOrdIsTransitive` | contrib/ltree/ltree_op.c:41-67 | the order of paths is transitive |
| `LtreeOrder.CutIsMonotone` | contrib/ltree/ltree_gist.c:457-481 | cutting two paths to the same length keeps their order |
| `LtreeOrder.CompareIsOrdExactly` | contrib/ltree/ltree_op.c:50-66 | the sign of the computed value is the order if and only if the final product does not overflow |
| `LtreeOrder.CompareIsOrd` | contrib/ltree/ltree_op.c:50-66 | it always is for paths within 14653 levels |
| `LtreeOrder.TameCompare` | contrib/ltree/ltree_op.c:50-66 | it is for any paths of which none overshoots another |
| `LtreeOrder.SafeIsTame` | contrib/ltree/ltree_op.c:50-66 | no path within 14653 levels overshoots another |
| `LtreeOrder.DeepPathsCompareWrongly` | contrib/ltree/ltree_op.c:66-66 | a path of 14654 levels compares as less than its empty prefix |
| `LtreeOrder.IsParent` | contrib/ltree/ltree_op.c:135-157 | the loop decides whether one path is a prefix of another |
| `LqueryOp.GetLexem` | contrib/ltree/lquery_op.c:22-39 | the next word between underscores |
| `LqueryOp.CompareSubnode` | contrib/ltree/lquery_op.c:41-77 | every word of the pattern occurs among the words of the label |
| `LqueryOp.CheckLevel` | contrib/ltree/lquery_op.c:79-105 | some alternative matches the label under its modifiers |
| `LqueryOp.CheckTurn` | contrib/ltree/lquery_op.c:132-215 | one turn of the matcher: positions, window and pending negated level |
| `LqueryOp.CheckCond` | contrib/ltree/lquery_op.c:120-244 | the matcher decides as specified on every pattern and path |
| `LqueryOp.PlainLevelsMatch` | contrib/ltree/lquery_op.c:120-244 | if a path is accepted, every level without negation matches some label of it |
| `LqueryOp.GoodLevelsArePrefix` | contrib/ltree/lquery_op.c:120-244 | if a path is accepted, it starts with the labels that the first levels fix |
| `LtreeGist.Hashing` | contrib/ltree/ltree_gist.c:144-158 | the bit of every label is set and none is cleared |
| `LtreeGist.Union` | contrib/ltree/ltree_gist.c:160-243 | for entries of any depth the key admits the labels of whatever an entry speaks for, and its bounds enclose it if the bounds of the entries can be compared; the bounds are those the comparisons select in any case |
| `LtreeGist.PickSplit` | contrib/ltree/ltree_gist.c:279-432 | the two sides are the two halves of the sorted offsets, neither is empty, and each key speaks for its side in the same sense |
| `LtreeGist.GistIsParent` | contrib/ltree/ltree_gist.c:437-455 | the query is tried at every length between the bounds and its level count is restored |
| `LtreeGist.GistIsChild` | contrib/ltree/ltree_gist.c:457-481 | the bounds are cut to the query's length, compared, and restored |
| `LtreeGist.GistTqCmp` | contrib/ltree/ltree_gist.c:522-549 | comparison of a path with the fixed labels of a pattern |
| `LtreeGist.GistBetween` | contrib/ltree/ltree_gist.c:551-578 | the bounds are cut to the fixed labels, compared, and restored |
| `LtreeGist.GistQe` | contrib/ltree/ltree_gist.c:483-520 | the signature admits the pattern |
| `LtreeGist.LtreeConsistent` | contrib/ltree/ltree_gist.c:600-679 | the check on leaf and internal keys for all strategies, by way of the truncated comparisons and the signature tests |
| `LtreeGist.CoverIsConsistent` | contrib/ltree/ltree_gist.c:600-679 | a key above an accepted path is consistent: for text queries at any depth, for the others if the paths compared can be compared |
| `LtreeGist.LeafCheckIsExact` | contrib/ltree/ltree_gist.c:600-679 | on a leaf page the check is the operator |
| `LtreeGist.PageKeyCovers` | contrib/ltree/ltree_gist.c:160-243 | the key of a page speaks for every row below it |
| `LtreeGist.BuiltIsKeyed` | contrib/ltree/ltree_gist.c:160-432 | every tree built from leaves by union and split, of any height and over paths of any depth, keeps the cover invariant |
| `LtreeGist.IndexSearchIsScan` | contrib/ltree/ltree_gist.c:600-679 | for every tree that can be built the pruned search returns exactly the scan, in the same order: for text queries without condition, for the others if the paths in the index and the one the query compares can be compared |
| `LtreeGist.DeepPairIsLost` | contrib/ltree/ltree_gist.c:194-243 | a path that overshoots its prefix becomes the left bound, and the prefix is not found by equality |
| `LtreeGist.FirstLostDepth` | contrib/ltree/ltree_gist.c:194-243 | the first such page: a path of 14654 levels and the empty path |
| `LtreeGist.PairIsFoundExactly` | contrib/ltree/ltree_gist.c:160-243 | the pages of two paths in either order answer every query about them as a scan does if and only if neither path overshoots the other |
| `LtreeGist.IndexSearchIsScanExactly` | contrib/ltree/ltree_gist.c:160-679 | over any set of paths, every tree that can be built answers every query about them as a scan does if and only if no path overshoots another |
| `LtreeIO.LtreeIn` | contrib/ltree/ltree_io.c:35-117 | the two-state parser accepts exactly dot-separated names of up to 255 letters, digits and underscores and returns them |
| `LtreeIO.LtreeOut` | contrib/ltree/ltree_io.c:119-146 | the printed text is the names joined by dots |
| `LtreeIO.SplitJoin` | contrib/ltree/ltree_io.c:35-146 | reading what was printed gives the path |
| `LtreeIO.JoinSplit` | contrib/ltree/ltree_io.c:35-146 | printing what was accepted gives the text |
| `LtreeIO.InputIsKeptExactly` | contrib/ltree/ltree_io.c:102-113 | the stored path prints as the input if and only if it has fewer than 65536 levels |
| `LqueryIO.LqueryIn` | contrib/ltree/ltree_io.c:163-442 | the nine-state loop, the check of the bounds and the loop that writes the levels compute the specified result on every text: a pattern as its 16-bit fields keep it, an error, or levels written over each other |
| `LqueryStore.LevelSize` | contrib/ltree/ltree_io.c:413-427 | the size of a level added up in 16 bits is its size modulo 65536 |
| `LqueryStore.Lay` | contrib/ltree/ltree_io.c:408-438 | the loop over the levels, each begun where the recorded size of the one before says, tells whether two of them share bytes |
| `LqueryStore.OverlapExactly` | contrib/ltree/ltree_io.c:408-438 | they do if and only if a level other than the last takes 65536 bytes or more |
| `LqueryStore.KeptExactly` | contrib/ltree/ltree_io.c:222-233 | a level keeps its alternatives if and only if there are fewer than 65536 |
| `LqueryIO.CountGood` | contrib/ltree/ltree_io.c:404-438 | the stored count is the length of the longest beginning of levels that are plain as far as their fields tell |
| `LqueryIO.LqueryOut` | contrib/ltree/ltree_io.c:444-544 | the printer writes every level in its shortest form, if the buffer holds the text |
| `LqueryStore.Reckon` | contrib/ltree/ltree_io.c:456-468 | the size of the buffer is that reckoned for the last level |
| `LqueryIO.OutFitsExactly` | contrib/ltree/ltree_io.c:456-544 | the text fits if and only if the levels before the last, with their dots, are no longer than what the last one leaves of its share |
| `LqueryIO.OneLevelFits` | contrib/ltree/ltree_io.c:456-544 | the text of one level fits if its size fits 16 bits |
| `LqueryIO.LongFirstLevelOverruns` | contrib/ltree/ltree_io.c:456-544 | a name followed by a level of one letter fits if and only if it has at most 35 letters |
| `LqueryIO.ParseOfPrint` | contrib/ltree/ltree_io.c:163-544 | what the parser makes of the text of any list of well-formed levels, with alternatives, modifiers, negation and all forms of stars |
| `LqueryIO.ParseUndoesPrint` | contrib/ltree/ltree_io.c:163-544 | it is the same pattern, its count of fixed levels and its negation flag recomputed, if and only if the number of levels, the alternatives of each level and the size of each level but the last fit 16 bits |
| `LqueryIO.ManyAlternativesAreLost` | contrib/ltree/ltree_io.c:222-233 | every level of 65536 alternatives is stored as a star with bounds zero |
| `LqueryIO.LongLevelIsOverwritten` | contrib/ltree/ltree_io.c:408-438 | the level behind 4096 one-letter alternatives is written over them |
| `Crosstab.Context.Collect` | contrib/tablefunc/tablefunc.c:451-534 | the inner loop fills in the first values of a run and moves the counter forward and back |
| `Crosstab.Context.Next` | contrib/tablefunc/tablefunc.c:451-592 | a call returns the first of what is pending and leaves the rest, or ends when nothing is |
| `Crosstab.Context.Drain` | contrib/tablefunc/tablefunc.c:451-592 | repeated calls end after finitely many and return all that is pending |
| `Crosstab.OneTuplePerRun` | contrib/tablefunc/tablefunc.c:465-535 | what is pending covers the rows from left to right without a gap, one tuple per maximal run of equal row names, with the run's first values in order and null fill |
| `Crosstab.Query` | contrib/tablefunc/tablefunc.c:451-592 | a whole query returns exactly that |
| `Crosstab.PromiseKeptExactly` | contrib/tablefunc/tablefunc.c:449-479 | it is kept if and only if there is a value column or no source row |
| `Connectby.OnPathIsCaught` | contrib/tablefunc/tablefunc.c:863-880 | a key on the branch is always found in its text, whatever the delimiter |
| `Connectby.CaughtIsOnPath` | contrib/tablefunc/tablefunc.c:863-880 | with keys around which the delimiter stands only where it was put, nothing else is found |
| `Connectby.TestIsRightExactly` | contrib/tablefunc/tablefunc.c:863-880 | for a one-character delimiter the test of a key is right on all branches of delimiter-free keys if and only if the key is delimiter-free |
| `Connectby.Build` | contrib/tablefunc/tablefunc.c:753-936 | the recursion ends for every table, delimiter and depth (measure: keys not on the branch) and stores one row per path below its start, or has met a path the test catches |
| `Connectby.Connectby` | contrib/tablefunc/tablefunc.c:703-936 | the query fails if and only if the test catches some path within the depth, and otherwise gives the root, if it has children, and one row per path with level its length and branch its keys joined |
| `Connectby.CaughtIsCyclic` | contrib/tablefunc/tablefunc.c:863-880 | with clean keys the paths caught are exactly those that come back to a key above |
| `Levenshtein.LowerRow` | contrib/fuzzystrmatch/fuzzystrmatch.c:117-163 | the inner loop makes the row of distances to one more character |
| `Levenshtein.Compute` | contrib/fuzzystrmatch/fuzzystrmatch.c:72-191 | the loop over two swapped rows returns the length of a shortest insert, delete and substitute script, and refuses exactly the strings over 255 |
| `Levenshtein.NoScriptIsShorter` | contrib/fuzzystrmatch/fuzzystrmatch.c:121-158 | no script that turns one string into the other is shorter than the recurrence says |
| `Levenshtein.SomeScriptIsAsShort` | contrib/fuzzystrmatch/fuzzystrmatch.c:121-158 | some script is as short |
| `Levenshtein.ZeroIffEqual` | contrib/fuzzystrmatch/fuzzystrmatch.c:103-191 | the distance is zero for equal strings only |
| `Levenshtein.Symmetric` | contrib/fuzzystrmatch/fuzzystrmatch.c:103-191 | the distance is symmetric |
| `Levenshtein.Triangle` | contrib/fuzzystrmatch/fuzzystrmatch.c:103-191 | the distance obeys the triangle inequality |
| `Sha1.QueueNextIs` | contrib/pgcrypto/sha1.c:178-222 | the word computed in the queue of sixteen (FIPS 180-1 section 8) is the word of the schedule of eighty (section 7) |
| `Sha1.RunRounds` | contrib/pgcrypto/sha1.c:172-222 | the eighty rounds over the queue are those over the schedule |
| `Sha1.Context.Step` | contrib/pgcrypto/sha1.c:86-231 | one block is compressed as section 7 says |
| `Sha1.Context.Loop` | contrib/pgcrypto/sha1.c:290-315 | after each call the state is the fold over the whole blocks taken in, the buffer holds exactly the rest, and the count is the length in bits modulo 2^64 |
| `Sha1.Context.Pad` | contrib/pgcrypto/sha1.c:247-288 | after padding the state is the fold over the blocks of the message padded as section 4 says |
| `Sha1.PaddedIsWhole` | contrib/pgcrypto/sha1.c:247-288 | the padded message is whole blocks |
| `Sha1.Context.Reset` | contrib/pgcrypto/sha1.c:235-244 | the context is as new |
| `Sha1.HashChunks` | contrib/pgcrypto/sha1.c:235-350 | however a message is cut into calls, the result is its digest |
| `Md5.Context.Loop` | contrib/pgcrypto/md5.c:147-175 | exactly which calls end; after each that does the state is the fold over the whole blocks, the buffer holds exactly the rest (fewer than 64 bytes), and the count is what 32-bit multiplication gives |
| `Md5.ShortCallsEnd` | contrib/pgcrypto/md5.c:162-163 | a call of less than 2^32 - 64 bytes ends, whatever is in the buffer |
| `Md5.Context.Pad` | contrib/pgcrypto/md5.c:177-216 | the final state is the fold over the message with a one bit, zeros and the count (RFC 1321 sections 3.1 and 3.2) |
| `Md5.CountIsRightExactly` | contrib/pgcrypto/md5.c:153-153 | the count is the length in bits modulo 2^64 if and only if the overflows of the calls add up to a multiple of 2^32 |
| `Md5.OneCall` | contrib/pgcrypto/md5.c:153-153 | one call is counted right exactly below 2^29 bytes |
| `Md5.SmallCalls` | contrib/pgcrypto/md5.c:153-153 | any number of calls below 2^29 bytes are counted right |
| `Md5.HashChunks` | contrib/pgcrypto/md5.c:134-216 | however a message is cut into calls, if they end the final state is that of its blocks padded with the count, which is the padded message if the count is right |
| `Hmac.Find` | contrib/pgcrypto/px-hmac.c:145-180 | a digest with blocks of less than two bytes is refused, any other gets pads of one block |
| `Hmac.Context.Init` | contrib/pgcrypto/px-hmac.c:52-85 | for any digest, keys up to a block are zero-filled, longer ones digested, and the inner pad taken in, if and only if the key or its digest fits a block |
| `Hmac.Context.Reset` | contrib/pgcrypto/px-hmac.c:87-95 | the just-keyed state is restored |
| `Hmac.Context.Update` | contrib/pgcrypto/px-hmac.c:97-101 | more text is taken in |
| `Hmac.Context.Finish` | contrib/pgcrypto/px-hmac.c:103-125 | the result is the code of RFC 2104 section 2 over everything taken in, for any digest |
| `Hmac.TwoMessages` | contrib/pgcrypto/px-hmac.c:52-180 | with one key and a reset between them, two messages in any chunks both get their code, for any digest that is not refused and any key that fits |
| `Hmac.Sha1Codes` | contrib/pgcrypto/px-hmac.c:52-180 | for SHA-1 this holds for every key |
| `Hmac.ResetBoth` | contrib/pgcrypto/internal.c:147-153 | the SHA-1 object and the digest object it stands for are alike after a reset |
| `Hmac.UpdateBoth` | contrib/pgcrypto/internal.c:139-145 | they stay alike when they take in data |
| `Hmac.FinishBoth` | contrib/pgcrypto/internal.c:155-161 | and give the same result |
| `Blowfish.DownUndoesUp` | contrib/pgcrypto/blf.c:57-121 | the alternating rounds downward undo the rounds upward, for any round function and any number of rounds |
| `Blowfish.DecipherUndoesEncipher` | contrib/pgcrypto/blf.c:57-121 | deciphering undoes enciphering for every set of subkeys and S-boxes |
| `Blowfish.DecryptUndoesEncrypt` | contrib/pgcrypto/blf.c:551-607 | so it does on eight bytes through big-endian words |
| `Cbc.EcbRun` | contrib/pgcrypto/blf.c:551-607 | for blocks of any size, every block of the buffer is replaced by its image, in place |
| `Cbc.CbcEncrypt` | contrib/pgcrypto/blf.c:609-643 | the forward loop in place encrypts the buffer block by block, each chained to the block just written |
| `Cbc.CbcDecrypt` | contrib/pgcrypto/blf.c:645-693 | the backward loop in place decrypts every non-empty buffer, each block chained to one still encrypted |
| `Cbc.CbcRoundTrip` | contrib/pgcrypto/blf.c:609-693 | decryption undoes encryption for every cipher with an inverse, block size, number of blocks and initial block |
| `Cbc.CbcJoin` | contrib/pgcrypto/internal.c:421-443 | two calls with the last block carried over encrypt as one |
| `Combo.Context.Encrypt` | contrib/pgcrypto/internal.c:421-443 | whole blocks are encrypted and the chaining block moves on; anything else is refused and changes nothing; the same for the 16-byte blocks of lines 300-328 |
| `Combo.Context.Decrypt` | contrib/pgcrypto/internal.c:445-467 | the same for decryption, where the chaining block is the last of the input |
| `Combo.Encrypt` | contrib/pgcrypto/px.c:106-175 | two cipher calls give the encryption of data and padding together, at most one block longer than the data |
| `Combo.Decrypt` | contrib/pgcrypto/px.c:177-222 | partial blocks are refused; otherwise the padding is taken off if it is well formed, whatever byte is found for an empty result |
| `Combo.UnpadUndoesPad` | contrib/pgcrypto/px.c:140-214 | for every length and block size, taking the padding off gives the data if and only if the length of the padding fits a byte |
| `Combo.RoundTrip` | contrib/pgcrypto/px.c:65-222 | for every cipher with an inverse, block size, mode and initial block, decryption under a fresh context gives back the data if and only if the length of the padding fits a byte, or, with padding off, the data is whole blocks; with padding off zeros are put behind it |
| `Combo.BlowfishRoundTrip` | contrib/pgcrypto/px.c:65-222 | with Blowfish and padding the data always comes back |

## Left out

- `set_timetravel`, the list of relations with time travel switched off, and the plan cache of `timetravel.c`: switches around the modelled trigger.
- Inserts with explicit dates: `TimeTravel.TimeTravelIsFaithful` speaks of runs whose inserts leave the dates null, since a given date is stored as it is.
- The character level of the boolean query input (`gettoken`, `gettoken_query`) and the printers `bqarr_out` and `ltxtq_out`: token streams are the starting point.
- `inner_int_inter`, `querytree` and `shorterquery` in `_int.c`: they read outside the live part of their buffers.
- `intbig` keys, `_ltree_gist.c`, `btree_gist`, `rtree_gist`, `seg`, `cube` and `tsearch`: weaker copies of the same argument, or files that are not part of this model.
- Floating-point costs and penalties: the waste of a pair, the order of the cost vector and the side that needs least enlargement are parameters of `IntArray.PickSplit`, which holds for all of them; the order by left bound is a parameter of `LtreeGist.PickSplit`.
- Arrays of more than one dimension, which every intarray operator refuses.
- What follows when more is written than was allocated, in intarray keys and in printed patterns, and what a pattern with overlapping levels reads as later: the models stop there.
- BoolInput.Compile: starts from tokens, so it does not model the limits of ltxtquery on its words (255 bytes each, 65535 bytes before the last), which refuse the longest of the failing queries.
- The index theorems take boolean queries that can be evaluated, that is without links of the wrong sign on the way; of the others `BoolInput.LongQueryIsMislinked` says what evaluation does.
- LtreeOrder.CompareIsOrd: states the order only for paths within 14653 levels; `LtreeOrder.CompareIsOrdExactly` says exactly when it holds.
- `strncmp` is the difference of the first differing bytes, letters and digits are those of the C locale, and the checksum behind signatures is any function.
- Equating `checkCond` with declarative pattern matching: it is greedy, so it is used only as the leaf predicate.
- The alignment of stored patterns is that of an 8-byte MAXALIGN.
- `lca`, `subltree`, `subpath` and the concatenation of paths: easy members.
- A null row name in `crosstab`, on which the code does not return.
- The SQL text and the types of the columns in `connectby`: a query is a selection in table order, and keys are text.
- Connectby.CaughtIsOnPath: one way only for delimiters of several characters; whether a key that is not clean is ever mistaken then depends on which other keys there are.
- Levenshtein works on characters where the code works on bytes.
- Md5.Context.Loop: says of a call whose index wraps only that it does not end.
- The rounds of MD5 inside one block and the key schedules of Blowfish: parameters.
- The word and byte views of the unions in `sha1.h` and `md5.h`: words are read from bytes in the order the code arranges.
- Rijndael inside one block, `crypt-des`, `crypt-md5` and bcrypt; cipher modes without blocks.
- Overlap of the input and result buffers in `px.c`: results are values.
- metaphone, soundex, earthdistance, `normal_rand`, dblink, pgbench and the other clients and foreign-library wrappers.
