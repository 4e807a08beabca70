# Release-cycle reconciliation, modelled in Dafny

This project models the reconciliation engine of `latest.py` in the
release-data repository. A product page declares release cycles such as
`4.1` or `17`. Each cycle record holds a `releaseCycle` name, an optional
`releaseDate`, an optional `latest` version and an optional
`latestReleaseDate`. A feed maps observed version strings to release dates.
For one product, the engine does four things:

- it hands every observed version to each cycle whose name is a prefix of
  the version at a boundary (`.`, `-`, `+` or a letter right after the name);
- each such cycle may move its `releaseDate` earlier, and may adopt the
  observation as its `latest` version and date;
- it records versions that match no cycle, and flags the product as
  updated when any cycle changed;
- after the whole feed, it reports the unmatched versions released fewer
  than 30 days ago.

Files:

- `wrappers.dfy`: `Option`.
- `version_order.dfy`: the outcome of comparing two versions (`Less`,
  `Equal`, `Greater`, `Invalid`). The comparison is a parameter `cmp`.
  `cmp(a, b) == Less` stands for `Version(a) < Version(b)`. `Invalid` stands
  for `InvalidVersion` being raised.
- `release_cycle.dfy`: cycle records and the matching rule. It has the
  update of one cycle as functions (`WithReleaseDate`, `WithLatest`,
  `Observe`) and the class `ReleaseCycle`, whose methods update its record
  in place and are proved against those functions. It also has lemmas about
  a cycle handed a sequence of observations (`RunCycle`).
- `product.dfy`: the state of a product during a run (`ProductState`), one
  observation (`Process`) and a whole feed (`Reconcile`). It has the class
  `Product`, whose `ProcessVersion` (with its loop `OfferToCycles`) is proved against `Process`, and
  lemmas about whole runs.
- `update_product.dfy`: the driver `UpdateProduct` and the reporting loop
  with its 30-day window.

Dates are day numbers (`int`). The feed is a sequence of observations in
dictionary iteration order, with dates already parsed. The dictionary of
unmatched versions is a map plus the list of its keys in insertion order,
because the report walks the dictionary in that order.

Python truthiness is modelled as the code has it. `if not old_latest` treats
an absent `latest` and an empty-string `latest` alike as "no prior latest"
(`HasPriorLatest`). A date object is always truthy, so only the presence of
`releaseDate` matters.

`Process` ORs into the product flag the flag of each including cycle as it
stands after the update (latest.py:133), so a flag set by an earlier
observation counts again. `ReconcileFlagsAgree` shows that, from a freshly
built product, the product flag is set exactly when some cycle flag is.

The feed is a sequence, so it may list a version more than once; in the
source it is a JSON object (latest.py:113, 159), whose keys are distinct. The
lemmas hold for every sequence, and on a feed without repeats "the last
occurrence" of a version is its only one.

## Model

| member | source | states |
|---|---|---|
| `ReleaseCycles.Includes` | latest.py:41-57 | a cycle includes a version only if its name is a prefix of it, and always includes its own name |
| `ReleaseCycles.IncludesExtension` | latest.py:45-57 | name + suffix is included exactly when the suffix is empty or starts with `.`, `-`, `+` or a letter |
| `ReleaseCycles.DigitBoundarySeparatesCycles` | latest.py:42-44 | if a digit follows a shorter name inside a longer name, no version is included by both cycles ("4.1" never claims a "4.10" version) |
| `ReleaseCycles.IncludesExamples` | latest.py:41-57 | "4.1" includes "4.1", "4.1.2", "4.1-final", "4.1r"; "17" includes "17.0.7+7"; "4.1" rejects "4.10", "4.10.2", "4.2" |
| `ReleaseCycles.WithReleaseDate` | latest.py:59-64 | the release date is never created and never moves later; it becomes the minimum of itself and the observed date; the record changes exactly when the date was present and strictly later; no other field changes |
| `ReleaseCycles.WithLatest` | latest.py:66-90 | `latest` and `latestReleaseDate` change only together and only to the observed pair; with no prior latest the pair is adopted; the same version gets its date corrected; a different version is adopted exactly when the comparator says old < new; a prior latest is never cleared |
| `ReleaseCycles.Observe` | latest.py:32-36 | handing over an observation always sets `matched`; `updated` is sticky, is set exactly when the date is tightened or the latest is adopted, and is set whenever the record changes |
| `ReleaseCycles.ObserveTwice` | latest.py:59-90 | repeating the same (version, date) changes no field; for a non-empty version that does not sort before itself, the repeat neither tightens nor adopts |
| `ReleaseCycles.IncomparableKeepsLatest` | latest.py:79-85 | an incomparable different version leaves `latest` and `latestReleaseDate` unchanged |
| `ReleaseCycles.RunCycle` | latest.py:32-36 | a cycle handed observations keeps its name, is matched once handed any, and keeps a set `updated` flag |
| `ReleaseCycles.LatestFollowsIncreasingVersions` | latest.py:66-90 | versions that increase step by step, starting above the recorded latest or with none, end with the last one and its date as latest |
| `ReleaseCycles.LatestKeepsFirstOfDecreasingVersions` | latest.py:66-90 | with no prior latest, or a recorded latest that sorts below the first observation, if no later version sorts above the first (each is lower or incomparable), the first stays latest with its date |
| `ReleaseCycles.ReleaseDateIsEarliest` | latest.py:59-64 | over any run, an absent release date stays absent; a present one ends as the earliest of itself and all observed dates, and equals one of them |
| `ReleaseCycles.ReleaseCycle.constructor` | latest.py:25-30 | the cycle takes its name from the record's `releaseCycle`, holds the record, and starts neither matched nor updated |
| `ReleaseCycles.ReleaseCycle.UpdateWith` | latest.py:32-36 | the cycle's new state is `Observe` of its old state |
| `ReleaseCycles.ReleaseCycle.Latest` | latest.py:38-39 | returns the recorded latest version, or none; changes nothing |
| `ReleaseCycles.ReleaseCycle.UpdateReleaseDate` | latest.py:59-64 | the record becomes `WithReleaseDate` of the old one; `updated` is raised exactly on tightening; `matched` is untouched |
| `ReleaseCycles.ReleaseCycle.UpdateLatest` | latest.py:66-90 | the record becomes `WithLatest` of the old one; `updated` is raised exactly on adoption; `matched` is untouched |
| `Products.Initial` | latest.py:115-117 | a freshly built product has one cycle per record in record order, with flags cleared; it is not updated and has no unmatched versions |
| `Products.Process` | latest.py:125-136 | exactly the including cycles are handed the observation; if none includes it, it is recorded as unmatched (overwriting) and no cycle changes; the product flag is sticky and ORs in the including cycles' flags; the unmatched key order stays duplicate-free |
| `Products.Reconcile` | latest.py:159-160 | processing the feed in order keeps the cycle names and count, keeps a set product flag, and keeps the unmatched key order consistent |
| `Products.Matching` | latest.py:129-130 | the observations a cycle includes, taken from the feed in order |
| `Products.ReconcileByCycle` | latest.py:129-133 | after a run, each cycle is what it would be if handed, in order, only the observations it includes |
| `Products.ProcessFlagsAgree` | latest.py:133 | if the product flag is set exactly when some cycle flag is, one observation keeps it so |
| `Products.ReconcileFlagsAgree` | latest.py:133 | from a freshly built product, after any run, the product is updated (and gets written) exactly when some cycle is updated |
| `Products.ProcessUnmatched` | latest.py:135-136 | one observation adds its version to the unmatched map exactly when no cycle includes it, with its date; other entries keep their dates |
| `Products.ReconcileUnmatched` | latest.py:135-136 | after a run, a version is unmatched exactly when it was before, or it is in the feed and no cycle includes it |
| `Products.UnmatchedDateStep` | latest.py:135-136 | for a version not unmatched at the start, the last observation of a run either leaves its unmatched date as it was (another version) or sets it to that observation's date (the same version) |
| `Products.LastIndexOf` | latest.py:159-160 | the index of the last observation of a version in the feed: it holds that version and no later observation does; -1 exactly when the version is absent |
| `Products.ReconcileUnmatchedDate` | latest.py:135-136 | a newly unmatched version carries the date of its last occurrence in the feed (on a feed without repeated versions, its only one); a later occurrence would overwrite an earlier one |
| `Products.Product.constructor` | latest.py:115-117 | builds one fresh cycle per record, in record order; the product is valid and its state is `Initial(records)` |
| `Products.Product.ProcessVersion` | latest.py:125-136 | the product's new state is `Process` of its old state; validity is kept |
| `Products.Product.OfferToCycles` | latest.py:128-133 | the loop over the cycles: every cycle becomes its dispatched old state; the match flag says whether some cycle includes the version; the product flag becomes the old flag ORed with the flags of the including cycles after the update |
| `Products.Product.Offer` | latest.py:130-132 | one cycle is handed the observation exactly when it includes the version, and reports whether it did |
| `Products.Product.CheckLatest` | latest.py:119-123 | returns, in increasing order, exactly the indices of matched cycles whose latest version is absent or not a feed version; mutates nothing |
| `Products.Product.Records` | latest.py:145 | the cycle records as they stand, in cycle order (what is written back) |
| `Reconciliation.RecentReports` | latest.py:168-174 | an entry is reported exactly when its version is unmatched, it carries the recorded date, and today - date < 30 |
| `Reconciliation.RecentExample` | latest.py:168-174 | an entry 15 days old is reported and one 60 days old is not |
| `Reconciliation.ReportRecent` | latest.py:168-174 | the reporting loop yields the recent unmatched entries in insertion order, without removing any |
| `Reconciliation.ProcessFeed` | latest.py:159-160 | processing the feed observation by observation leaves the product in state `Reconcile` of its old state over the whole feed, and valid |
| `Reconciliation.UpdateProduct` | latest.py:152-174 | without a feed nothing happens; otherwise the feed is processed in order from the freshly built product; the records are handed back exactly when the product is updated; the warnings are the matched cycles whose latest is not in the feed; the unmatched map is returned whole and the recent entries are reported |

## Left out

- Reading the product page (YAML front matter and prose body) and the JSON feed in `Product.__init__`, and writing the page back in `Product.write`: these are file and format plumbing in foreign libraries. The model takes the cycle records and the feed as values and returns the records to write.
- A cycle record without a `releaseCycle` key, or a product page without a `releases` key: the source raises `KeyError` (latest.py:28, latest.py:115), nothing catches it, and the whole run stops. In the model, `CycleData` always has a name and the records are always given.
- The order of keys in a written record: when a record has no `latest` or `latestReleaseDate` key, the source adds it at the end of the ordered mapping (latest.py:88-89), so the written record's field order changes. `CycleData` has fields, not an ordered mapping, so the model does not capture this order.
- Record fields other than `releaseCycle`, `releaseDate`, `latest` and `latestReleaseDate`: the engine never reads or writes them, so they are not represented.
- The parsing and ordering of `packaging.version.Version`: this is a foreign library. The comparison is a parameter, and lemmas that need properties of it state them as hypotheses.
- `ReleaseCycles.IsAlpha`: this covers ASCII letters only. Python's `str.isalpha` also accepts non-ASCII letters, which needs the Unicode database.
- `datetime.date.fromisoformat`: dates arrive already parsed, so a malformed date string, which raises in the source, is not modelled.
- `datetime.now`: "today" is a parameter. The source reads the clock again for each unmatched entry, so a run across midnight could use two different days. The model uses one day.
- Logging calls, the consistency-warning message, and the exact text of report lines (`name:version (date)`): the model returns warning indices and (version, date) pairs instead.
- Argument parsing, the YAML resolver and representer set-up, the loop over products and the GitHub Actions output channel: these are command-line plumbing.
- Non-string or non-date values in the YAML (for example, a `latest` that YAML read as a number) are not modelled. Dates are integers and versions are strings.
- `src/debian.py` and `src/chef-infra-server.py` are not part of this model. They are feed scrapers built on git, subprocesses and HTTP.
