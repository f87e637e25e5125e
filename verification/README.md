# Prisma preprocessing script: pure computations

`preprocessing/prisma_preproc.py` preprocesses functional MRI data from a
Prisma scanner. It builds a nipype workflow and hands it to nipype. The
workflow does motion correction, registration to a distortion scan,
field-map unwarping and registration to anatomy. The engine that validates,
expands and schedules the workflow is the nipype library, and nipype is not
part of this model. What the script computes itself is modelled here as pure
Dafny functions, with lemmas about them:

- **Plugin arguments** (`PluginArgs`, with `Text` and `Decimal`). The
  optional `-plugin_args` text `key:value[,key:value...]` becomes the keyword
  map passed to the execution plugin. Each value is coerced to an integer if
  `int()` accepts it, else to a float if `float()` accepts it, else kept as
  text. A later duplicate key overwrites an earlier one. An entry that does
  not split into exactly two parts on `:` raises, and the whole parse fails.
- **Output renaming table** (`OutputNames`). One DataSink substitution per
  functional run. Pair `r` maps `_merge_epis<r>/timeseries_corrected.nii.gz`
  to `timeseries_corrected_run<r+1, at least two digits>.nii.gz`.
- **Distortion-correction parameters** (`Distortion`). The encoding
  directions `np.repeat([pe, pe + '-'], 3)`, the six readout times of 1, and
  `get_warp`, which keeps the first warp field.
- **Static wiring** (`Wiring`). The twelve workflow nodes in declaration
  order and the nineteen `connect` edges as data. The model proves that every
  edge runs from an earlier-declared node to a later one. So the declaration
  order is a topological order and the workflow graph has no cycle.

Python's exceptions are `Err` values of `Results.Result`. A missing option is
`Results.None`.

Three details the model keeps exactly as the script has them:

- The readout times are the literal `[1, 1, 1, 1, 1, 1]` (line 171).
- The run-numbered output names come from the substitution list built at
  lines 246-248.
- The first-warp narrowing is the lambda `get_warp` (line 228), applied on
  one connection only. `Wiring` records it as that connection's
  `FirstElement` transform, and `Distortion.GetWarp` models the lambda.

## Model

| member | source | states |
|---|---|---|
| `Text.Split` | preprocessing/prisma_preproc.py:99-102 | `str.split` on one character gives one more piece than there are separators, no piece contains the separator, and joining the pieces gives back the text |
| `Text.SplitTrailingSeparator` | preprocessing/prisma_preproc.py:99 | a text ending in the separator splits with an empty last piece |
| `Text.SplitJoin` | preprocessing/prisma_preproc.py:99-102 | splitting undoes joining for any non-empty list of separator-free pieces, so `Split` and `Join` are inverses |
| `Decimal.NatToDecimal` | preprocessing/prisma_preproc.py:246 | `'%d' % r` is a non-empty digit string with no leading zero whose value is `r` |
| `Decimal.ZeroPad` | preprocessing/prisma_preproc.py:247 | `'%02d' % n` has at least the requested width, is exactly that width or exactly the plain digits, and its digits denote `n` |
| `Decimal.ParseInt` | preprocessing/prisma_preproc.py:104 | `int(v)` succeeds exactly on an optional `+`/`-` followed by one or more digits, and yields the digits' value, negated after `-` |
| `Decimal.ParseFormatted` | preprocessing/prisma_preproc.py:104 | `int('%d' % n) == n` for every integer `n` |
| `Decimal.ParseZeroPadded` | preprocessing/prisma_preproc.py:247 | `int('%02d' % n) == n`: zero padding loses nothing |
| `PluginArgs.Coerce` | preprocessing/prisma_preproc.py:103-109 | a value is an int exactly when it is an integer literal, a float exactly when it is not one but `float()` accepts it, and otherwise the unchanged text |
| `PluginArgs.Parse` | preprocessing/prisma_preproc.py:97-109 | no option text gives the empty map, and every key of a successful result was named by some entry |
| `PluginArgs.Loop` | preprocessing/prisma_preproc.py:99-109 | the loop over the entries raises exactly when some entry does not split into two parts on `:`, and after a successful loop the map's keys are the earlier keys plus every entry's key |
| `PluginArgs.LoopKeepsOthers` | preprocessing/prisma_preproc.py:104-109 | a key that no entry names keeps its earlier value |
| `PluginArgs.LoopLastWins` | preprocessing/prisma_preproc.py:99-109 | after a successful loop a key holds the coerced value of the last entry naming it |
| `PluginArgs.ParseAbsent` | preprocessing/prisma_preproc.py:97-98 | without `-plugin_args` the keyword map is empty |
| `PluginArgs.ParseFailsIff` | preprocessing/prisma_preproc.py:99-101 | parsing fails exactly when some comma-separated entry does not contain exactly one colon |
| `PluginArgs.ParseRejectsEmptyEntry` | preprocessing/prisma_preproc.py:99-101 | any empty entry, such as the one two adjacent commas leave, makes parsing fail |
| `PluginArgs.ParseRejectsEmptyText` | preprocessing/prisma_preproc.py:99-101 | the empty option text makes parsing fail, because `"".split(",")` is `[""]` |
| `PluginArgs.ParseRejectsTrailingComma` | preprocessing/prisma_preproc.py:99-101 | any option text ending in a comma makes parsing fail |
| `PluginArgs.ParseKeys` | preprocessing/prisma_preproc.py:99-104 | on success the keys are exactly the left-hand parts of the entries |
| `PluginArgs.ParseLastWins` | preprocessing/prisma_preproc.py:99-109 | on success each key holds the coerced right-hand part of the last entry naming it |
| `PluginArgs.EntryParts` | preprocessing/prisma_preproc.py:102 | `k, v = arg.split(':')` gives back the key and value of an entry built from a key and a value both free of `:` and `,` |
| `PluginArgs.TwoEntries` | preprocessing/prisma_preproc.py:52-58 | text shaped like the help text's `n_procs:2,memory_gb:5` parses to the map of the two coerced values, the second stored last |
| `PluginArgs.DuplicateKey` | preprocessing/prisma_preproc.py:99-109 | a key given twice, as in `a:1,a:2`, keeps only its second coerced value |
| `OutputNames.SourceName` | preprocessing/prisma_preproc.py:246 | the engine's name for run `r` is `_merge_epis`, then digits without a leading zero whose value is `r` (exactly `'%d' % r`), then `/timeseries_corrected.nii.gz`; so `r` reads back out of it |
| `OutputNames.TargetName` | preprocessing/prisma_preproc.py:247 | the output name for run `r` is `timeseries_corrected_run`, then at least two digits whose value is `r + 1` and which have a leading zero only as padding to two (exactly `'%02d' % (r+1)`), then `.nii.gz`; exactly two digits below 100 runs; so `r + 1` reads back out of it |
| `OutputNames.Substitutions` | preprocessing/prisma_preproc.py:246-248 | there is one rename pair per functional run |
| `OutputNames.NumberBetweenFramed` | preprocessing/prisma_preproc.py:246-247 | the number read back from between a name's fixed prefix and suffix is the number formatted there |
| `OutputNames.SubstitutionRunNumbers` | preprocessing/prisma_preproc.py:246-248 | pair `r` renames the engine's output of run `r` (0-based) to the output file numbered `r + 1` (1-based) |
| `OutputNames.SubstitutionsDistinct` | preprocessing/prisma_preproc.py:246-248 | for every pair of distinct runs, their source names differ and their target names differ (the run numbers read back by `SubstitutionRunNumbers` differ) |
| `OutputNames.TargetPadding` | preprocessing/prisma_preproc.py:247 | the run number in a target has at least two digits, and exactly two below 100 runs |
| `OutputNames.FourRuns` | preprocessing/prisma_preproc.py:246-248 | four runs are renamed to `timeseries_corrected_run01.nii.gz` through `..._run04.nii.gz`, in run order |
| `Distortion.Repeat` | preprocessing/prisma_preproc.py:169 | `np.repeat(xs, k)` has `k` times as many entries as `xs`; their contents are stated by `RepeatAt` |
| `Distortion.RepeatAt` | preprocessing/prisma_preproc.py:169 | position `i` of `np.repeat(xs, k)` holds element `i / k` of `xs` |
| `Distortion.Topup` | preprocessing/prisma_preproc.py:169-172 | six encoding directions, the first three `pe` and the last three `pe-`, as many as there are readout times, each readout time 1, and the configuration file `b02b0.cnf` |
| `Distortion.GetWarp` | preprocessing/prisma_preproc.py:228 | `get_warp` succeeds exactly on a non-empty list and then yields its first element; an empty list raises `IndexError` |
| `Distortion.GetWarpIgnoresRest` | preprocessing/prisma_preproc.py:228 | only the first warp field matters: later fields can be anything |
| `Wiring.Rank` | preprocessing/prisma_preproc.py:138-251 | each node's rank is its position in the declaration order |
| `Wiring.PathAscends` | preprocessing/prisma_preproc.py:174-256 | along any path of edges that all ascend a ranking, the rank strictly increases |
| `Wiring.AscendingIsAcyclic` | preprocessing/prisma_preproc.py:174-256 | edges that all ascend some ranking form no cycle |
| `Wiring.ConnectionsFollowDeclarationOrder` | preprocessing/prisma_preproc.py:174-256 | every `connect` edge goes from an earlier-declared node to a later one |
| `Wiring.DeclarationOrderIsTopological` | preprocessing/prisma_preproc.py:132-256 | the declaration order lists every node once and puts each edge's source before its target |
| `Wiring.WorkflowIsAcyclic` | preprocessing/prisma_preproc.py:174-256 | the workflow's connections form no cycle |
| `Wiring.EachInputConnectedOnce` | preprocessing/prisma_preproc.py:174-256 | no input slot of any node is the target of two connections |
| `Wiring.OnlyWarpIsNarrowed` | preprocessing/prisma_preproc.py:228-235 | exactly one connection narrows a list to one element, and it feeds the first warp field into the per-volume correction |
| `Wiring.EpisCorrected` | preprocessing/prisma_preproc.py:124-256 | the functional runs are motion corrected, registered to the distortion scans and unwarped: paths of connections lead from the split volumes, the realignment, the registration to the distortion scan and the field estimation through the per-volume correction and the merge to the output sink |
| `Wiring.AnatomyRegistrationNotApplied` | preprocessing/prisma_preproc.py:124-256 | the registration to anatomy is computed but not applied: it is connected to the output sink, and every path of connections from it stays at it or the sink, so it never reaches the corrected volumes or the merged runs |

## Left out

- Command-line parsing with argparse (lines 16-59). It is library plumbing. The model starts from the option text, or `None` when the option is absent.
- Scan discovery with `glob` and the `prisma`/`bids` path templates (lines 61-83). This is file-system I/O.
- Creating the output and working directories, and writing `session.json` (lines 85-95, 112-114). This is file-system I/O.
- `preproc_wf.run` and everything nipype does when the workflow runs: MapNode expansion (`iterfield`, `nested`), connection resolution, scheduling by the MultiProc, Linear or SLURM plugins, and the DataSink copying and renaming files. That code is in nipype, which is not part of this model.
- The FSL and FreeSurfer tools (MCFLIRT, FLIRT, Merge, TOPUP, ApplyTOPUP, MeanImage, BBRegister, Split, ConvertXFM, ApplyWarp). Their numerics are external. Only their node names and connected slots appear, in `Wiring`.
- Literal node inputs such as `realign.inputs.in_file`, and the tools' fixed parameters, are not in `Wiring`. `Wiring.EachInputConnectedOnce` checks single binding among connections only.
- Decimal.ParseInt: accepts only an optional sign followed by ASCII digits. Python's `int()` also strips surrounding whitespace, allows underscores between digits and accepts non-ASCII decimal digits. It also does not model CPython's limit on converting long digit strings (Python 3.11 and later, and the 3.7.14, 3.8.14, 3.9.14 and 3.10.7 security releases): there `int()` raises `ValueError` for a literal of more than 4300 digits, which the model accepts.
- PluginArgs.Coerce: floating point is not modelled. Whether `float()` accepts a text is the parameter `isFloat`. A float value keeps the text it came from instead of a binary64 number. Because of the 4300-digit limit above, the script stores a float (`float(v)` gives `inf` or a large float) for a longer integer literal, where the model gives `IntV`.
- Decimal.NatToDecimal: the run index comes from `np.arange`, a 64-bit numpy integer. The model uses unbounded naturals, since a run count never comes near 2^63.
