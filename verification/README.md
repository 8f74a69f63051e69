# Verified models of parts of UHD

UHD is the host software of the USRP radios. This project models the parts of it
whose behaviour is hard to see from any one function, and proves what they keep.

* **Property tree** (`Paths`, `TreeSpec`, `TreeLaws`, `PropertyTree`). A shared
  mutable trie addressed by slash-joined strings through many handles. The nodes are
  objects; every operation is proved to act as a function on a map from names to
  entries. The theorems are about runs of those functions, and say with paths alone
  what each operation leaves: what exists, what it holds and lists, what is thrown.
* **Spectrum display** (`Dft`, `DftTones`, `DftPlot`). The recursive transform of one
  bin equals the direct sum; a tone shows in its own bin and in no other; the plotted
  columns cover the bins, each at its place.
* **Self-calibration** (`Calibration`, `CalibrationSteps`, `CalibrationRuns`,
  `CalibrationSearch`). The nested grid search with retry-by-undo acts as a search
  without errors on the clean measurements; a device determines its run, and it is
  shown where a run captures, what it measures and exactly when it ends.
* **B200 EEPROM** (`EepromSpec`, `Eeprom`). The two layouts, migration between
  them, and what is left when the link fails after any number of writes.
* **Device discovery** (`Addresses`, `Discovery`, `FindDevices`). The hash input
  of an address, two ways to drop duplicates, the table of live devices, and the
  grouping of found addresses by serial.
* **FX3 side channel** (`SideChannel`, `EventMessages`, `FirmwareLog`). Nested
  counters, the event decoder and the log reader.
* **Frequency hopping** (`Hopping`, `Oscillators`, `TwinrxDriver`, `TwinrxPlan`).
  The queue of timed commands, and the two oscillator stages as the driver writes
  them while the hops take turns on two synthesizers.
* **Waveform generator** (`Waveform`) and **card burner** (`CardBurner`).

Pure code is modelled by functions and lemmas, code that works step by step by
methods and classes that are proved to compute those functions. Reals stand for
floating-point numbers. Hardware is an arbitrary function: what a capture at a
correction gives, how many samples a send takes, after how many writes the EEPROM
link gives up, whether a device's make function throws.

## Where the code differs from what it says

The models follow the code. In these places its comments, messages or evident
intention say something else, and there is a theorem that says exactly when they
hold.

* `remove` and `pop` find the node by its tokens but erase it by `leaf()` of the
  path, so on a path with a trailing slash, which joining with an empty path
  gives, they throw on a node that exists (`TreeSpec.RemoveSucceedsIff`,
  `TreeSpec.PopSucceedsIff`, `TreeSpec.TrailingSlashExample`).
* `pop<T>` with the wrong type throws after the property has left the tree
  (`TreeSpec.PopAsLosesPropertyIff`).
* Joining `branch_path` and `leaf` does not give back a path without a slash
  (`Paths.BranchAndLeafRejoin`).
* "dc in the center": DC is drawn one place right of the middle
  (`DftPlot.ReorderKeepsBins`).
* An even number of bins, which every transform of two or more samples has, loses
  its last one, so the highest bin is not always shown
  (`DftPlot.PeakOfAllIsShownIff`, `DftPlot.PeakLostExample`).
* With fewer bins than columns the column ranges stop one short of the last bin;
  it is shown all the same (`DftPlot.RangesReachEnd`, `DftPlot.PeakIsShown`).
* The IQ searches start from a suppression of zero at the zero correction instead
  of the uncorrected one, and can report it as an improvement although no capture
  showed it (`Calibration.IqKeepsUnmeasuredIff`, `CalibrationRuns.IqUnmeasuredExample`).
* With a precision that is not positive the search never finishes: it goes on
  until there are MAX_NUM_TX_ERRORS errors, and for ever if there never are
  (`CalibrationSteps.FinishesOnlyIfPositive`, `CalibrationSteps.SearchEndsIff`).
* Unloading the bootloader overwrites the signature before it copies the data,
  so stopping in between loses the data of a loaded device unless the image is
  short or happens to hold the same bytes (`EepromSpec.UnloadAfterLoadSafeIff`,
  `EepromSpec.UnloadLosesDataExample`).
* Loading a bootloader does not migrate the data of a memory with neither
  signature, where it is still read at the old place, as after `--uninit-device`
  (`EepromSpec.LoadKeepsDataIff`, `EepromSpec.LoadAfterUninit`).
* The message about serial numbers allows eight characters, the code seven
  (`Eeprom.InitReadsBack`).
* "Maps 1 to 1": different addresses can have the same hash input
  (`Addresses.SameInputIff`, `Addresses.InputNotOneToOne`).
* A counter set throws when the data runs out exactly before a trailing empty set
  (`SideChannel.UpdateSucceedsIff`, `SideChannel.EmptySetExample`). The tool's own
  layout has none.
* "Already pre-programmed in the previous iteration": not at the first hop of a
  later sweep when the number of hops is odd (`Oscillators.PretunedIff`,
  `Oscillators.OddSweepExample`).
* Nor where a hop is the second in a row to need a value of an oscillator stage:
  the driver writes a stage only when the value its channel wants has changed, so
  the synthesizer the hop takes keeps an older value and the burst is received
  with that (`Oscillators.AllReceivedIff`, `Oscillators.BandCrossingExample`).

## Model

| member | source | states |
|---|---|---|
| Paths.TokensAreTokens | host/lib/property_tree.cpp:20-21 | no token is empty or contains a slash |
| Paths.TokensConcat | host/lib/property_tree.cpp:20-21 | a slash anywhere in a path, after any other slashes, separates: the tokens are those of both sides |
| Paths.TokensOfRender | host/lib/property_tree.cpp:20-21 | spelling any token sequence with slashes and tokenizing it gives it back |
| Paths.JoinTokens | host/lib/property_tree.cpp:48-61 | joining terminates and the tokens of the join are the tokens of both paths, whatever slashes they begin or end with |
| Paths.JoinAssociative | host/lib/property_tree.cpp:48-61 | joining three paths gives the same string in either order of joining, for all strings |
| Paths.TokensSplitAtLeaf | host/lib/property_tree.cpp:30-46 | the tokens of a path are those of its branch, if it has a slash, and then its leaf unless that is empty |
| Paths.LeafIsLastToken | host/lib/property_tree.cpp:30-37 | the leaf is the last token walked if and only if the path has no trailing slash; otherwise it is empty |
| Paths.BranchAndLeafRejoin | host/lib/property_tree.cpp:39-46 | branch and leaf joined name the same node if and only if the path is empty or has a slash |
| TreeSpec.SpellNameOf | host/lib/property_tree.cpp:212-215 | the name of a node determines the token sequence that leads to it |
| TreeSpec.NameOfSpell | host/lib/property_tree.cpp:212-215 | the token sequence determines the name |
| TreeSpec.UnderIsPrefix | host/lib/property_tree.cpp:212-215 | being in the subtree of a node is having its token sequence as a prefix |
| TreeSpec.GrowAddsMissingPrefixes | host/lib/property_tree.cpp:167-185 | the create walk adds exactly the missing prefixes of the path, empty, each as the last child of the one above, and changes nothing else |
| TreeSpec.PruneRemovesSubtree | host/lib/property_tree.cpp:90-108 | erasing removes exactly the node and its descendants; every other node keeps its property, its children and their order, but for the one link to the erased node |
| TreeSpec.CreateThenRemove | host/lib/property_tree.cpp:90-185 | removing what was just created succeeds, and gives back the tree before, child order included, if and only if the parent existed |
| TreeSpec.CreateThenAccess | host/lib/property_tree.cpp:141-203 | a created property is found through every spelling of its path with the same tokens, and popped once through each without a trailing slash |
| TreeSpec.ThrowIffUnchanged | host/lib/property_tree.cpp:80-203 | of all eight operations, typed ones included, the four that read never change the tree, and the others leave it as it was if and only if they throw, but for the type error of a typed pop; each keeps it well formed |
| TreeSpec.RunsStayWellFormed | host/lib/property_tree.cpp:72-227 | after any run of operations through handles at any roots the tree is well formed and its nodes closed under prefixes |
| TreeSpec.SubtreeOperation | host/lib/property_tree.cpp:80-88 | every operation through a subtree handle gives the value or error and the tree that the operation on the joined path gives at the parent handle; only the path named by a type error is the one given |
| TreeSpec.RemoveSucceedsIff | host/lib/property_tree.cpp:90-108 | removing an existing node succeeds if and only if it is not the root and the path given is not empty, all slashes or ending in a slash |
| TreeSpec.PopSucceedsIff | host/lib/property_tree.cpp:141-165 | a pop succeeds if and only if the node has a property, is not the root, and the path given is not empty, all slashes or ending in a slash |
| TreeSpec.TrailingSlashExample | host/lib/property_tree.cpp:90-165 | a created property that is read through its path with a slash at the end, but neither removed nor popped through it |
| TreeSpec.PopAsLosesPropertyIff | host/include/uhd/property_tree.ipp:198-206 | a typed pop fails and has changed the tree exactly when it throws the type error, which is when it would have succeeded but for the type |
| TreeSpec.PopAsLosesPropertyExample | host/include/uhd/property_tree.ipp:198-206 | a property of one type popped as another is gone after the type error |
| TreeLaws.NewTree | host/lib/property_tree.cpp:110-139 | a new tree has its root, by any spelling without tokens, and no other path; the root lists nothing and holds nothing |
| TreeLaws.ListedIff | host/lib/property_tree.cpp:110-139 | a name is listed at a path, once, if and only if joining it to the path gives a path that exists |
| TreeLaws.MissingIsNotFound | host/lib/property_tree.cpp:90-203 | listing, access, remove and pop report a path that does not exist as not found and change nothing |
| TreeLaws.ErrorsAt | host/lib/property_tree.cpp:90-203 | which error is thrown at a path that exists: no property, the root, or a trailing slash, in the order of the checks |
| TreeLaws.TypedIff | host/include/uhd/property_tree.ipp:186-206 | the typed wrappers give a property of the type asked for, the type error for one of another type, and any other error as it is |
| TreeLaws.CreateSucceedsIff | host/lib/property_tree.cpp:167-185 | through any handle a creation succeeds if and only if the node is missing or holds no property; on an occupied path it throws that it exists and changes nothing |
| TreeLaws.CreateOnce | host/lib/property_tree.cpp:179-184 | after a creation any other through a spelling of the same path throws, and the first property is still there |
| TreeLaws.CreateExists | host/lib/property_tree.cpp:167-185 | after a creation the paths that exist are those before and the prefixes of the path |
| TreeLaws.CreateHolds | host/lib/property_tree.cpp:167-185 | the path gains the property; all other paths hold what they held, new ones nothing |
| TreeLaws.CreateLists | host/lib/property_tree.cpp:167-185 | every path lists what it did and then the next name of the path if that is a new child |
| TreeLaws.RemoveTakesSubtree | host/lib/property_tree.cpp:90-108 | after a remove that succeeds the paths that exist are those before without the path and all below it; the others hold what they held, and list the same but for the leaf at its parent |
| TreeLaws.PopTakesSubtree | host/lib/property_tree.cpp:141-165 | the same for a pop, which gives the property an access would have given |
| TreeLaws.RemoveParentExample | host/lib/property_tree.cpp:90-108 | removing "/a" after creating "/a/b" leaves neither |
| PropertyTree.PropertyTree.Subtree | host/lib/property_tree.cpp:80-88 | a new handle on the same shared nodes, rooted at the joined path |
| PropertyTree.PropertyTree.Walk | host/lib/property_tree.cpp:95-103 | following the child links reaches the object recorded for the name of the path, and its parent's, or finds it missing exactly when the name is not in the tree |
| PropertyTree.PropertyTree.Remove | host/lib/property_tree.cpp:90-108 | on the heap of nodes: result and tree are those of the removal on maps, for any handle |
| PropertyTree.PropertyTree.EraseLeaf | host/lib/property_tree.cpp:104-107 | erasing by the leaf of the path prunes the node walked to, or with a trailing slash throws and changes nothing |
| PropertyTree.PropertyTree.Exists | host/lib/property_tree.cpp:110-123 | true exactly for the names in the tree |
| PropertyTree.PropertyTree.List | host/lib/property_tree.cpp:125-139 | the children in order of creation, or the lookup error for a name not in the tree |
| PropertyTree.PropertyTree.Pop | host/lib/property_tree.cpp:141-165 | result and tree are those of the pop on maps; a node without a property is refused, one with children goes with all of them |
| PropertyTree.PropertyTree.PopAs | host/include/uhd/property_tree.ipp:198-206 | the pop followed by the type test |
| PropertyTree.PropertyTree.Create | host/lib/property_tree.cpp:167-185 | result and tree are those of the creation on maps, for free and for occupied paths |
| PropertyTree.PropertyTree.GrowTo | host/lib/property_tree.cpp:172-178 | the create loop ends at the object of the path in the tree grown to it |
| PropertyTree.PropertyTree.StepDown | host/lib/property_tree.cpp:173-177 | one turn of it grows the tree by the next prefix if that was missing |
| PropertyTree.PropertyTree.Fill | host/lib/property_tree.cpp:179-184 | the property is set at the one node and nothing else changes |
| PropertyTree.PropertyTree.Access | host/lib/property_tree.cpp:187-203 | the property of the named node, or the error for a missing node or an empty one |
| PropertyTree.PropertyTree.AccessAs | host/include/uhd/property_tree.ipp:186-195 | the access followed by the type test |
| PropertyTree.Guts.Extend | host/lib/property_tree.cpp:173-177 | adding a child object adds its name to the heap's tree with no property and no children, last among its siblings |
| PropertyTree.Guts.Detach | host/lib/property_tree.cpp:107-107 | unlinking a child removes the names of all that hung below it |
| PropertyTree.Node.PopKey | host/include/uhd/types/dict.ipp:155-167 | exactly the item under the key is erased, or the key error is thrown and nothing changes |
| Dft.PowEven | host/examples/ascii_art_dft.hpp:92-105 | even and odd powers of a factor are powers of its square |
| Dft.EvenOddSplit | host/examples/ascii_art_dft.hpp:92-105 | a direct sum of even length is that of its even terms plus the factor times that of its odd terms, both at the square of the factor |
| Dft.CtFftIsDirectSum | host/examples/ascii_art_dft.hpp:92-105 | the strided recursion at any start, step and power-of-two count, with factors each the square of the one before, is the direct sum over its samples at the first factor; all accesses are in bounds |
| Dft.CtFftBin | host/examples/ascii_art_dft.hpp:108-117 | the factor loop and the recursion compute bin k of the discrete Fourier transform, for every power of two, every k and every exponential that squares when doubled |
| DftTones.ToneInItsBin | host/examples/ascii_art_dft.hpp:108-117 | for every number of samples, bin k of the tone that turns k times forward, a full turn over the samples each time, is the number of samples: the exponent is negative |
| DftTones.BinsTellTonesApart | host/examples/ascii_art_dft.hpp:108-117 | and with an exponential that is one after a full turn and at no n-th part of it, every other bin of that tone is zero |
| DftTones.SumsAdd | host/examples/ascii_art_dft.hpp:108-117 | the transform of a sum is the sum of the transforms, so tones do not disturb each other |
| DftTones.ExponentialDoubles | host/examples/ascii_art_dft.hpp:113-115 | an exponential squares when its argument doubles, which is all that the recursion needs of it |
| Dft.PowerOfTwoCheck | host/examples/ascii_art_dft.hpp:191-194 | the bit test accepts exactly the powers of two |
| Dft.LogPowerDft | host/examples/ascii_art_dft.hpp:188-229 | it throws exactly on lengths that are not zero or a power of two, and otherwise each bin's level is that of the transform of the windowed samples |
| Dft.WindowedWeighs | host/examples/ascii_art_dft.hpp:199-216 | each sample is multiplied by the real coefficient at its place |
| Dft.ConstantWindow | host/examples/ascii_art_dft.hpp:196-217 | the power of a constant window is its square for each sample |
| DftPlot.ColumnInRange | host/examples/ascii_art_dft.hpp:249-258 | every index a column reads exists |
| DftPlot.ColumnsMeet | host/examples/ascii_art_dft.hpp:249-258 | the first column starts at bin zero and each stops where the next starts |
| DftPlot.ColumnHolds | host/examples/ascii_art_dft.hpp:249-254 | bin n is in the range of column b if and only if it is within half a column of it on the scale from the first to the last |
| DftPlot.RangesReachEnd | host/examples/ascii_art_dft.hpp:249-258 | the last column's range reaches the last bin if and only if there are at least as many bins as columns; otherwise it stops one short and starts at that bin |
| DftPlot.ColumnsPartition | host/examples/ascii_art_dft.hpp:249-258 | with at least as many bins as columns every bin is in the range of a column and the ranges are disjoint |
| DftPlot.PeakIsShown | host/examples/ascii_art_dft.hpp:249-261 | for any number of bins and columns the highest column is the highest of the reordered bins |
| DftPlot.PeakOfAllIsShownIff | host/examples/ascii_art_dft.hpp:242-261 | it is the highest of all bins if and only if their number is odd or another bin is as high as the last, which is dropped |
| DftPlot.PeakLostExample | host/examples/ascii_art_dft.hpp:242-247 | four bins whose peak is not shown |
| DftPlot.Reorder | host/examples/ascii_art_dft.hpp:242-247 | the loop builds the rotation by half, of the bins without the last when their number is even |
| DftPlot.ReorderKeepsBins | host/examples/ascii_art_dft.hpp:242-247 | the rotation is a permutation of those bins; DC goes to the place after the middle, which is the middle only for a single bin |
| DftPlot.BinAtPlace | host/examples/ascii_art_dft.hpp:242-247 | every place: k places to the right or left of DC is the bin k above or below it, negative ones counted from the end |
| DftPlot.RangeMax | host/examples/ascii_art_dft.hpp:255-258 | the inner loop computes the maximum of its range and its first bin |
| DftPlot.ColumnMax | host/examples/ascii_art_dft.hpp:249-261 | a column shows the maximum of its bins |
| DftPlot.ColumnShows | host/examples/ascii_art_dft.hpp:249-261 | no bin of its range is above what a column shows, which is one of them, or the first bin where the range is empty |
| DftPlot.PlotColumns | host/examples/ascii_art_dft.hpp:237-261 | the columns of the whole plot, over the rotated bins |
| Calibration.StepVanishes | host/utils/uhd_cal_tx_dc_offset.cpp:206-248 | with two or more steps the step falls below any positive precision, so the search terminates |
| Calibration.StepVanishesIff | host/utils/uhd_cal_tx_dc_offset.cpp:206-206 | some step is below the precision if and only if that is positive |
| Calibration.OneStepNeverShrinks | host/utils/usrp_cal_utils.hpp:37-37 | with a single step the window never shrinks |
| Calibration.NarrowNested | host/utils/uhd_cal_tx_dc_offset.cpp:238-247 | around the best point or any point of the grid, the next window is centred there and nested in this one, with the next step |
| Calibration.PassStaysPlaced | host/utils/uhd_cal_tx_dc_offset.cpp:206-248 | after a pass both windows are centred on the best correction, nested in those before and inside the first |
| Calibration.WindowsStayPlaced | host/utils/uhd_cal_tx_dc_offset.cpp:196-248 | after p passes both windows are centred on the best correction and inside the first one, the step is (2/(N+1))^(p+1), and every measurement of the passes was at a correction strictly between -1 and 1 |
| Calibration.BestOfPassFrom | host/utils/uhd_cal_tx_dc_offset.cpp:231-236 | the best after a pass is the one before or one measured, strictly better if it changed, and none measured in the pass is better |
| Calibration.BestOfAll | host/utils/uhd_cal_tx_dc_offset.cpp:206-248 | the same over all passes, from the starting value |
| CalibrationSearch.CaptureAt | host/utils/uhd_cal_tx_dc_offset.cpp:213-230 | one capture, counted with its error and appended to the log of what the device gave |
| CalibrationSearch.SearchRow | host/utils/uhd_cal_tx_dc_offset.cpp:210-237 | despite undo and retry the inner loop measures each grid point of the row once, in order, without error, and keeps the best; or it stops at the last error allowed, part way along the row |
| CalibrationSearch.SearchPass | host/utils/uhd_cal_tx_dc_offset.cpp:208-237 | the same for the whole grid of a pass |
| CalibrationSearch.SearchPasses | host/utils/uhd_cal_tx_dc_offset.cpp:206-248 | the loop over the passes makes such a run and returns its best, and ends for every device and precision for which there is one |
| CalibrationSearch.Search | host/utils/uhd_cal_tx_dc_offset.cpp:199-248 | for every device the search ends, either as the search without errors on the clean measurements, with passes exactly until the step is below the precision, or cut short at MAX_NUM_TX_ERRORS errors as the beginning of one; a finished one makes passes times N squared captures and one for each error, one cut short fewer than another pass and the errors would add |
| Calibration.CapturesOfRun | host/utils/uhd_cal_tx_dc_offset.cpp:206-248 | the exact number of captures of every finished and every aborted run, below (passes + 1) times N squared plus MAX_NUM_TX_ERRORS |
| CalibrationRuns.EveryCaptureInside | host/utils/uhd_cal_tx_dc_offset.cpp:206-248 | in every run, finished or aborted, every capture, failed or not, is at a correction strictly between -1 and 1 |
| CalibrationRuns.MeasuredIffCaptured | host/utils/uhd_cal_tx_dc_offset.cpp:213-236 | in a finished run a level counts as measured at a correction if and only if a capture there gave it without error |
| CalibrationRuns.RunExists | host/utils/uhd_cal_tx_dc_offset.cpp:206-248 | every device that reports no error has a finished run for every positive precision |
| CalibrationRuns.GuardStaysTrue | host/utils/uhd_cal_tx_dc_offset.cpp:206-206 | with a precision that is not positive the loop goes on after any passes |
| CalibrationSteps.FinishesOnlyIfPositive | host/utils/uhd_cal_tx_dc_offset.cpp:206-230 | only with a positive precision is there a finished run; with any other a run has ended at MAX_NUM_TX_ERRORS errors |
| CalibrationSteps.SearchEndsIff | host/utils/uhd_cal_tx_dc_offset.cpp:206-248 | for every device there is a run, finished or aborted, if and only if the precision is positive or its captures, going on for ever, would show MAX_NUM_TX_ERRORS errors |
| CalibrationSteps.OrderlyIsAfter | host/utils/uhd_cal_tx_dc_offset.cpp:206-248 | what a device gave so far determines where the next capture is made, so its captures are determined |
| CalibrationSteps.GridInOrder | host/utils/uhd_cal_tx_dc_offset.cpp:206-248 | measurements at the points of the grids, taken in order, are sorted into just those rows and passes |
| CalibrationSteps.RunGoesOn | host/utils/uhd_cal_tx_dc_offset.cpp:206-248 | a run meets the stop condition at its end and at no earlier capture |
| CalibrationSteps.StopIsRun | host/utils/uhd_cal_tx_dc_offset.cpp:206-248 | captures made in order up to the first stop are a run, finished or aborted according to the errors |
| CalibrationSteps.RunsAgree | host/utils/uhd_cal_tx_dc_offset.cpp:206-248 | two runs of one device are the same run with the same end |
| CalibrationRuns.EndsWithoutErrorsIff | host/utils/uhd_cal_tx_dc_offset.cpp:206-248 | for a device that reports no error the search ends if and only if the precision is positive |
| CalibrationRuns.FailingDeviceEndsSearch | host/utils/uhd_cal_tx_dc_offset.cpp:217-230 | a device that always reports an error aborts the search at any precision that allows a pass, after ten captures at the first of five by five points, -2/3 and -2/3 |
| Calibration.MeasurementsPerPass | host/utils/uhd_cal_tx_dc_offset.cpp:208-237 | passes times N squared clean measurements |
| CalibrationSearch.CalibrateDcOffset | host/utils/uhd_cal_tx_dc_offset.cpp:196-269 | the search for the lowest level starting from the uncorrected one; a correction is kept if the result is lower |
| Calibration.DcKeepsIff | host/utils/uhd_cal_tx_dc_offset.cpp:250-257 | a correction is kept if and only if some measurement was below the uncorrected level, and then it is the minimum of all measured |
| CalibrationSearch.CalibrateIqBalance | host/utils/uhd_cal_rx_iq_balance.cpp:199-280 | the search for the highest suppression starting from zero; kept if the result is above the uncorrected one |
| Calibration.IqBestMeasuredIff | host/utils/uhd_cal_tx_iq_balance.cpp:196-261 | the result is the highest of all measurements and of zero at the zero correction; it was measured if and only if some measurement was above zero or one at the zero correction was zero |
| Calibration.IqKeepsUnmeasuredIff | host/utils/uhd_cal_rx_iq_balance.cpp:208-268 | a result that was not measured is kept if and only if the uncorrected suppression was negative, nothing tried came above zero and the zero correction did not measure zero |
| CalibrationRuns.IqUnmeasuredExample | host/utils/uhd_cal_rx_iq_balance.cpp:208-268 | a run in which that happens, for every positive precision and negative uncorrected suppression |
| CalibrationRuns.IqMeasuredExample | host/utils/uhd_cal_rx_iq_balance.cpp:208-268 | a run with the same result in which it was measured, at the middle of the first grid |
| EepromSpec.ImagePrefix | host/lib/usrp/b200/b200_iface.cpp:721-767 | after any number of transfers the memory begins with a prefix of the image and is otherwise unchanged |
| EepromSpec.LoadIsOverlay | host/utils/b2xx_fx3_utils.cpp:791-855 | a finished load is the image over the migrated memory |
| EepromSpec.LoadBytes | host/utils/b2xx_fx3_utils.cpp:808-855 | every byte after a load from the old layout: the image, at 0x7F00 the header, vendor id, product id and the data from 0x04DC, the rest unchanged |
| EepromSpec.LoadStoppedShape | host/utils/b2xx_fx3_utils.cpp:808-855 | a load stopped after any number of writes has done part of the migration and none of the image, or all of it and a prefix of the image with its signature |
| EepromSpec.LoadIsCrashSafe | host/utils/b2xx_fx3_utils.cpp:808-855 | a load from either layout stopped after any number of writes leaves one layout valid, with the same data, ids and serial found through it |
| EepromSpec.LoadIsRetryable | host/utils/b2xx_fx3_utils.cpp:808-855 | loading again after such a stop ends in the same memory as if it had not stopped |
| EepromSpec.LoadKeepsDataIff | host/utils/b2xx_fx3_utils.cpp:808-855 | for every memory, a load stopped after any number of writes or finished keeps the data found if and only if it made none, the memory had one of the signatures, or both places held the same bytes |
| EepromSpec.LoadAfterUninit | host/utils/b2xx_fx3_utils.cpp:638-645 | uninitializing erases the first eight bytes and nothing else; the data of an old-layout memory is still found after it, and a load then keeps it if and only if the last page held it too |
| EepromSpec.ReloadKeepsData | host/utils/b2xx_fx3_utils.cpp:808-855 | a second load, of any image, keeps the migrated page and so data, ids and serial |
| EepromSpec.UnloadBytes | host/utils/b2xx_fx3_utils.cpp:863-882 | every byte after an unload: old signature, swapped ids, the data at its old place, the rest unchanged |
| EepromSpec.UnloadLays | host/utils/b2xx_fx3_utils.cpp:863-882 | the same with the addresses and the signature as numbers |
| EepromSpec.UnloadKeepsData | host/utils/b2xx_fx3_utils.cpp:863-882 | data, ids and serial found through the old layout after it are those found through the new one before |
| EepromSpec.RoundTrip | host/utils/b2xx_fx3_utils.cpp:808-882 | load then unload restores the eight header bytes and the 36 data bytes of every old-layout memory, and the serial is the same before, between and after |
| EepromSpec.RoundTripRestoresIff | host/utils/b2xx_fx3_utils.cpp:808-882 | the header is restored if and only if the memory began with the old signature |
| EepromSpec.UnloadCrashSafeIff | host/utils/b2xx_fx3_utils.cpp:863-882 | stopped between its two writes an unload keeps the data readable if and only if the old place already held it; unloading again does not repair it and loading again makes the loss final |
| EepromSpec.UnloadAfterLoadSafeIff | host/utils/b2xx_fx3_utils.cpp:808-882 | for a device that was loaded that is so if and only if the image, where it reaches over the old place, holds the bytes of the data |
| EepromSpec.UnloadLosesDataExample | host/utils/b2xx_fx3_utils.cpp:863-882 | an image and a memory for which the data is lost |
| Eeprom.B200.HdrAddress | host/utils/b2xx_fx3_utils.cpp:318-329 | the header offset of the layout the signature shows |
| Eeprom.B200.WriteAndVerify | host/utils/b2xx_fx3_utils.cpp:273-310 | succeeds if and only if the write goes through and is of eight bytes, the number always read back |
| Eeprom.B200.LoadBootloader | host/utils/b2xx_fx3_utils.cpp:791-855 | makes the writes of a load in order, all of them or as many as the link took; an image too large is refused after the migration |
| Eeprom.B200.SendImage | host/lib/usrp/b200/b200_iface.cpp:668-783 | the transfer loop makes exactly the image's writes |
| Eeprom.B200.UnloadBootloader | host/utils/b2xx_fx3_utils.cpp:863-882 | refuses a memory without bootloader and otherwise makes the writes of an unload, or as many as the link took |
| Eeprom.B200.InitDevice | host/utils/b2xx_fx3_utils.cpp:660-735 | refuses serials that are empty or longer than seven before any write, and otherwise makes the writes of the header and of the serial with its null, or as many as the link took |
| Eeprom.InitStopped | host/utils/b2xx_fx3_utils.cpp:660-735 | stopped between them the ids are as given, the data is that at the old place, the same as before unless the bootloader was loaded, and running it again ends as if it had not stopped |
| Eeprom.InitReadsBack | host/utils/b2xx_fx3_utils.cpp:54-65 | after that, ids and serial read back as given whatever the memory held |
| Eeprom.B200.Blank | host/utils/b2xx_fx3_utils.cpp:354-374 | erases as many pages, from the first, as the link takes |
| Eeprom.BlankReachesEverything | host/utils/b2xx_fx3_utils.cpp:608-621 | the address bytes of the loop reach every byte of the memory |
| Addresses.SortedIsSorted | host/lib/device.cpp:49-49 | the keys are hashed in ascending order |
| Addresses.AscendingUnique | host/lib/device.cpp:49-49 | a set of keys has one ascending order, so the order of the dictionary does not matter |
| Addresses.HashDeviceAddr | host/lib/device.cpp:35-58 | the loops combine exactly the canonical list of strings |
| Addresses.SameInputIff | host/lib/device.cpp:35-58 | two addresses have the same hash input if and only if they agree on all keys that count, whatever the order and the ignored keys |
| Addresses.InputIsListed | host/lib/device.cpp:35-58 | the hash input is the resource and its value, or each key that counts in ascending order, followed by its value |
| Addresses.InputNotOneToOne | host/lib/device.cpp:29-34 | two different addresses with the same hash input |
| Discovery.Discover | host/lib/device.cpp:85-113 | an address with a maker is found if and only if some registered driver of the kind asked for, or of any kind if that is asked for, found it without throwing and has that maker |
| Discovery.DiscoveredIff | host/lib/device.cpp:85-113 | the same for what the method is proved to return |
| Discovery.DiscoveredInOrder | host/lib/device.cpp:85-113 | the pairs are one for each find of a driver the filter lets through, in order of registration and then of the finds |
| Discovery.FirstsAreFirst | host/lib/device.cpp:116-167 | dropping duplicates leaves exactly the first address of each hash, in the order found |
| Discovery.FirstsDistinct | host/lib/device.cpp:116-167 | no hash is left twice and none is lost |
| Discovery.DedupAddrs | host/lib/device.cpp:116-128 | the set-insert loop of find drops exactly the duplicates |
| Discovery.DedupPairs | host/lib/device.cpp:146-167 | so does the in-place removal of make, on pairs of address and maker |
| Discovery.DedupsAgree | host/lib/device.cpp:116-167 | both leave the same addresses in the same order, so index i of make is address i of find |
| Discovery.Find | host/lib/device.cpp:130-143 | the first address of each hash among what was discovered: every address is a find of a driver the filter lets through, and every such find has an address of the same hash |
| Discovery.OneDevicePerHash | host/lib/device.cpp:204-236 | over every run of makes and releases there is at most one live device for each hash, and it is the one in the table |
| Discovery.HeldStaysLive | host/lib/device.cpp:221-235 | no step but its own release ends a device or changes its hash |
| Discovery.MakeAgain | host/lib/device.cpp:221-235 | making again returns the same device until it is released, and after that never the same one |
| Discovery.MakeNew | host/lib/device.cpp:220-235 | a make whose hash has no live device throws what the make function throws and changes nothing, or gives a device never given before, live under that hash |
| Discovery.MergeKeepsFound | host/lib/device.cpp:213-218 | the merged address has the items found, and those of the hint only where nothing was found |
| Discovery.Registry.Make | host/lib/device.cpp:179-236 | a key error for no device, an index error past the last, otherwise the live device of the chosen address, or a new one that a driver the filter lets through, which found the address, makes from it and the hint; errors change nothing |
| Discovery.Registry.Obtain | host/lib/device.cpp:220-235 | the weak pointer in the table gives the object still held, or a new object replaces it, as in the runs above |
| Discovery.Registry.LetGo | host/lib/device.cpp:221-235 | the last release of an object is the release step of the runs, and leaves the table alone |
| FindDevices.GroupBySerial | host/utils/uhd_find_devices.cpp:58-81 | the loops with in-place erase give each serial once with exactly the values of all its addresses, and leave one address of each serial |
| FindDevices.GroupOne | host/utils/uhd_find_devices.cpp:60-80 | one turn of the outer loop groups the serial of its address completely |
| FindDevices.TakeSame | host/utils/uhd_find_devices.cpp:66-79 | the inner loop takes out every later address of the serial and no other, and ends as the list gets shorter |
| FindDevices.AddItems | host/utils/uhd_find_devices.cpp:67-73 | the key loop adds exactly the address's values other than the serial |
| FindDevices.FactsMean | host/utils/uhd_find_devices.cpp:58-81 | a value is listed for a key and serial if and only if some found address has that serial and that value, and the key is not the serial's |
| SideChannel.FormatLength | host/utils/b2xx_side_channel.py:384-392 | the struct format has one `i` for each number in the nested layout |
| SideChannel.Update | host/utils/b2xx_side_channel.py:394-407 | the loop replaces the numbers in layout order and returns exactly the unused suffix, or throws after using up what there was |
| SideChannel.UpdateOne | host/utils/b2xx_side_channel.py:397-406 | the same for one attribute, a number or a nested set |
| SideChannel.FillReadsBack | host/utils/b2xx_side_channel.py:394-407 | reading the updated counters in order gives the data consumed, followed by the old numbers where there was no data |
| SideChannel.FillKeepsShape | host/utils/b2xx_side_channel.py:394-407 | names and nesting do not change |
| SideChannel.AcceptsIff | host/utils/b2xx_side_channel.py:397-406 | the loop over the names gets through if and only if there is more data than the layout has numbers, or just as much and the layout does not end in an empty set |
| SideChannel.UpdateSucceedsIff | host/utils/b2xx_side_channel.py:394-407 | an update returns if and only if there is more data than numbers, or just as much and the layout is not empty and does not end in an empty set |
| SideChannel.EmptySetExample | host/utils/b2xx_side_channel.py:394-407 | a layout of one number that throws on one number |
| SideChannel.FillExample | host/utils/b2xx_side_channel.py:394-407 | a nested layout filled from a list, number by number |
| EventMessages.DecodeOne | host/utils/b2xx_side_channel.py:650-683 | one turn of the loop on the program's own variables is the step of the automaton |
| EventMessages.Decode | host/utils/b2xx_side_channel.py:643-683 | the loop prints the registers and complaints and collects the event bytes, each in order |
| EventMessages.DecodeInvertsEncode | host/utils/b2xx_side_channel.py:643-683 | any interleaving of register and event items, encoded and decoded, comes back in order and ends idle |
| EventMessages.ItemMeans | host/utils/b2xx_side_channel.py:650-683 | the characters of each kind of item and the numbers and bytes they stand for |
| EventMessages.CleanIffEncoded | host/utils/b2xx_side_channel.py:643-683 | input is decoded without complaint or rest if and only if it is an encoding |
| EventMessages.EveryCharacterCounts | host/utils/b2xx_side_channel.py:643-683 | on arbitrary input every character is consumed once |
| FirmwareLog.LinesInvertEncode | host/utils/b2xx_side_channel.py:517-547 | null-terminated non-empty lines are parsed back exactly, whatever unterminated tail or empty string follows |
| FirmwareLog.LinesDropOnlyRemainder | host/utils/b2xx_side_channel.py:517-547 | every buffer is in just one way lines followed by a part without a line, and only that part is dropped |
| FirmwareLog.Reader.GetLog | host/utils/b2xx_side_channel.py:517-547 | the loops return those lines numbered on from the last call, raise `log_index` by their number and count a read if there is a first byte that is not null |
| Hopping.CollectHops | host/examples/twinrx_freq_hopping.cpp:196-199 | the frequencies are all those from start to end at the given distance, at least one |
| TwinrxPlan.Lo2AcrossBands | host/lib/usrp/dboard/twinrx/twinrx_experts.cpp:107-206 | the second oscillator is wanted at 2.495 GHz for 1.75 GHz and at 1.4 GHz for both 1.85 and 1.95 GHz |
| TwinrxPlan.OscillatorsMix | host/lib/usrp/dboard/twinrx/twinrx_experts.cpp:103-145 | both oscillators outright: the sum or difference of the frequency and 1250 or 2345 MHz, with the thresholds at 50 MHz, 1.8 and 5.1 GHz, and that plus or minus 150 MHz |
| TwinrxPlan.FindSpurs | host/lib/usrp/dboard/twinrx/twinrx_experts.cpp:189-208 | the nested loops find a spur if and only if some pair of harmonics up to the order mixes to within 40 MHz of the intermediate frequency or its image |
| TwinrxPlan.ComputeLo2Side | host/lib/usrp/dboard/twinrx/twinrx_experts.cpp:169-187 | the loop from order five down gives the side on which there are no spurs up to the highest order, above if there is none |
| TwinrxPlan.ReadsBackIff | host/lib/usrp/dboard/twinrx/twinrx_experts.cpp:107-223 | undoing both mixings gives the frequency asked for if and only if it is 50 MHz or above that, with the tolerance of one hertz, and up to 6 GHz; both oscillators are within their ranges |
| TwinrxPlan.LowSideIff | host/lib/usrp/dboard/twinrx/twinrx_experts.cpp:169-187 | the second oscillator is below if and only if for some order there are no spurs there and some above |
| TwinrxPlan.LowSideExample | host/lib/usrp/dboard/twinrx/twinrx_experts.cpp:169-208 | at 56 MHz the second harmonics of both would mix into the band, so the second oscillator is below, at 2195 MHz |
| TwinrxDriver.Settings.Want0 | host/include/uhd/utils/dirty_tracked.hpp:87-94 | assigning to a tracked value marks it as changed if and only if it differs |
| TwinrxDriver.Settings.ResolveChannel0 | host/lib/usrp/dboard/twinrx/twinrx_experts.cpp:618-650 | for each of the 25 pairs of sources what is written to which synthesizer: the changed value to the one the channel uses, and the other moved away if channels share one |
| TwinrxDriver.Settings.ResolveChannel1 | host/lib/usrp/dboard/twinrx/twinrx_experts.cpp:652-688 | the same for the second channel, which writes the synthesizer it uses alone, or with an external source moves its own away unless the first channel uses it |
| TwinrxDriver.Settings.Resolve | host/lib/usrp/dboard/twinrx/twinrx_experts.cpp:610-688 | for each of the 25 pairs of sources the value of each synthesizer after it, given outright by the wanted values and whether they changed; both are clean after it |
| TwinrxDriver.Settings.Start | host/examples/twinrx_freq_hopping.cpp:172-206 | making the device, disabling the second channel and tuning the first to the first frequency leaves the stage the hops start from |
| TwinrxDriver.Settings.HopOnce | host/examples/twinrx_freq_hopping.cpp:233-246 | setting the source writes nothing, and the two tunings of a hop change the stage as Oscillators says |
| Oscillators.NextHop | host/lib/usrp/dboard/twinrx/twinrx_experts.cpp:632-688 | from the second hop on each synthesizer is written by a hop if and only if the values of the two hops differ |
| Oscillators.ReceivedNextIff | host/lib/usrp/dboard/twinrx/twinrx_experts.cpp:632-688 | while all hops before were received with their values, the next one is if and only if it does not miss |
| Oscillators.AllReceivedIff | host/examples/twinrx_freq_hopping.cpp:229-246 | for any values of the hops and any number of sweeps, all hops are received with theirs if and only if none misses: none needs the value of the hop before, which was the first to need it, on the synthesizer that hop did not write |
| Oscillators.EverReceivedIff | host/examples/twinrx_freq_hopping.cpp:229-246 | a run without end receives all its hops with their values if and only if none misses up to the second hop of the second sweep |
| Oscillators.PretunedNextIff | host/examples/twinrx_freq_hopping.cpp:242-245 | while all hops before were received with their values, the next finds its own tuned beforehand if and only if it swaps synthesizers and does not miss, or does not swap and needs the value of the hop before |
| Oscillators.PretunedIff | host/examples/twinrx_freq_hopping.cpp:229-245 | all hops find their values tuned beforehand if and only if none misses and no sweep starts on the synthesizer of the hop before with another value |
| Oscillators.OddSweepExample | host/examples/twinrx_freq_hopping.cpp:242-245 | three hops with three values: all are received with theirs, and only the first of the second sweep does not find it tuned |
| Oscillators.BandCrossingExample | host/examples/twinrx_freq_hopping.cpp:233-246 | the sweep 1.75, 1.85, 1.95 GHz: the third hop is received with the second oscillator at 2.495 instead of 1.4 GHz |
| Hopping.Hopper.Issue | host/examples/twinrx_freq_hopping.cpp:223-225 | the command with number k, counting from one, is timed at k intervals |
| Hopping.DueAtIsProduct | host/examples/twinrx_freq_hopping.cpp:223-225 | the interval added k times is k intervals |
| Hopping.Hopper.FillQueue | host/examples/twinrx_freq_hopping.cpp:218-226 | the queue starts with sixteen commands, or one for each hop if they are fewer |
| Hopping.Hopper.Retune | host/examples/twinrx_freq_hopping.cpp:233-246 | the tuning of a hop takes both stages one hop further along their courses |
| Hopping.Hopper.Receive | host/examples/twinrx_freq_hopping.cpp:248-256 | at each receive at least one command is waiting and never more than sixteen |
| Hopping.CourseReceivedIff | host/examples/twinrx_freq_hopping.cpp:229-246 | along the course of a stage all bursts are received with their values if and only if no hop misses |
| Hopping.Hopper.Run | host/examples/twinrx_freq_hopping.cpp:218-274 | the queue bounds hold over any number of sweeps; without repetition exactly one command is issued for each hop and none is left, with it as many wait as at the start; in each stage all bursts are received with their values if and only if no hop misses |
| Waveform.WrapKeepsPhase | host/examples/wavetable.hpp:69-72 | the table is read at the same place when the index or a negative step wraps, since its length divides the word |
| Waveform.WrapAdd | host/examples/tx_waveforms.cpp:302-305 | adding wrapped numbers in the word is wrapping their sum |
| Waveform.FillBuffer | host/examples/tx_waveforms.cpp:430-433 | the refilled buffer holds the next samples on unbounded integers |
| Waveform.Stream | host/examples/tx_waveforms.cpp:298-436 | sample n over all buffers is table[((n+1)*step) mod 8192] with unbounded integers; the rounds go on exactly until enough samples were accepted |
| CardBurner.PaddingFits | host/utils/usrp2_card_burner.py:61-62 | the padded size is the least whole number of sectors, and within the slot for images up to the limit |
| CardBurner.CopyToCard | host/utils/usrp2_card_burner.py:176-183 | exactly the bytes of the range change, and it fails if the card ends first |
| CardBurner.WriteImage | host/utils/usrp2_card_burner.py:168-195 | the card holds the image padded with zeros at the offset and is otherwise unchanged |
| CardBurner.VerifyImage | host/utils/usrp2_card_burner.py:143-166 | passes if and only if the card holds the image at the offset |
| CardBurner.WriteAndVerify | host/utils/usrp2_card_burner.py:197-210 | images over the limit are refused before any write; a write that goes through passes verification |
| CardBurner.BurnSdCard | host/utils/usrp2_card_burner.py:212-220 | firmware, then FPGA, up to the first that is too large or does not fit, with all verdicts passed otherwise |
| CardBurner.BothImagesIntact | host/utils/usrp2_card_burner.py:212-220 | after both, both images verify, and no byte outside the padded ranges changed |
| CardBurner.OneImageIntact | host/utils/usrp2_card_burner.py:212-220 | after burning one image, it verifies and no byte outside its padded range changed |
| CardBurner.LimitIsTight | host/utils/usrp2_card_burner.py:25-29 | an FPGA image, padded, stays clear of the firmware slot if and only if it is within the size limit |

## Left out

- Floating point: reals are exact. The exponential is any function that squares when its argument is doubled, and in DftTones one that turns sums into products; window, logarithm and level are parameters.
- Dft.LogPowerDft: the coefficients of the window and the formula for decibels are parameters, since both rest on rounded cosines and logarithms.
- The plot's labels, axes and bar characters, and plots less than two columns wide.
- CalibrationSearch.Search: the number of steps is any number from two on (the programs use five); it is called where the search ends, which CalibrationSteps.SearchEndsIff characterises, since a method that may run for ever has no result to state.
- CalibrationSearch.CalibrateIqBalance: stands for both IQ programs, whose searches are the same; tuning, gain setting, captures and the table of results are not modelled.
- Eeprom.B200.LoadBootloader: reads never fail, a write happens entirely or throws, and once one has thrown all later ones do; resetting the device and its other error states are left out.
- EepromSpec.RoundTrip: the image is taken to begin with the new signature and to stay below the last page, and transfers to be at least four bytes.
- Addresses.HashDeviceAddr: the combining function is arbitrary, so nothing is claimed about collisions; the string under "resource" is hashed as any other.
- Discovery.Registry.Make: calls are whole steps, since a mutex serialises them; a make function gives a new device or throws, and the preference files are a function of the address.
- Discovery.Discover: drivers are searched one after another, as their results are collected; a driver that throws is one that found nothing.
- SideChannel.Update: a set of counters is a value the update returns, with names that differ; unpacking the bytes of a reply is left out.
- Property values are a type and an identity; coercers, publishers, subscribers, null properties and the mutex are left out, and so is joining with a number.
- PropertyTree.PropertyTree.Access: returns the property itself and not a reference to its place in the tree.
- TwinrxDriver.Settings.Resolve: a value within 0.1 ppm of the one a synthesizer was last set to counts as different and is written; coerced values, charge pumps, gains and antennas are left out.
- TwinrxPlan.ReadsBackIff: both oscillators are tuned exactly to what is wanted, and the intermediate frequency is its default; oscillator frequencies set by the user and preselectors are left out.
- Hopping.Hopper.Run: the run is of a given number of sweeps, which stands for the interruption by the user; receive errors, partial bursts and the output file are left out.
- Waveform.Stream: the run is of at most a given number of rounds; metadata flags and channels are left out.
- CardBurner.BurnSdCard: the card is an array of bytes; finding cards and the `dd` program are left out.
- Option parsing, console output, signals and sleeps everywhere.
- Streaming examples, GPIO and SPI demonstrations, image builders, language bindings, exception tables and version strings: library plumbing or fixed tables.
