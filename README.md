# Spell catalog extractor, in Dafny

`extract_spells.py` walks a directory of `.docx` lesson documents and turns each file into a spell record for a shop catalog. For each file it:

- derives a spell name from the file name;
- classifies the name into one of nine categories by ordered keyword rules;
- looks up the category's price, effect list and difficulty;
- takes the course from the first directory below the scan root;
- writes a one-sentence description.

Group-chat logs (`群聊记录`) and transcripts (`转写`) are skipped. Records are numbered from 1 in walk order, sorted by (category, name) and counted per category.

This project models that logic and proves its properties. It has four modules:

- `PyStr` (`pystr.dfy`) models the Python string operations the script relies on:
  - `k in s` (`Contains`)
  - `startswith` (`StartsWith`)
  - `replace(p, '')` (`DeleteAll`), a single left-to-right pass
  - `strip()` (`Strip`), with the exact whitespace set of `str.isspace`
- `Spells` (`spells.dfy`) models the per-file functions:
  - name normalisation: `NormalizedName`, implemented by the method `ExtractSpellInfoFromFilename`, whose prefix loop with `break` is `RemoveFirstPrefix`
  - `Categorize`, with its rule table `Rules`
  - `DeterminePrice`, `GetEffectsByCategory` and `Difficulty`
  - `Course` and `Description`
- `Catalog` (`catalog.dfy`) models `main`:
  - the record-building loop (`AssembleSpells`, specified by `Assembled`)
  - the in-place sort of an array of records (`SortSpells` with its insertion step `InsertLast`)
  - the per-category counting loop (`CountCategories`)
  - the whole run (`ExtractCatalog`)
- `Scenarios` (`scenarios.dfy`) holds worked examples. Most are stated for a whole family of names or paths; `ReplaceIsSinglePass` is about one fixed file name.

The directory walk is an input: a sequence of `SourceFile(name, relPath, path)`.

Behaviour of the code worth noting:

- The comment at `extract_spells.py:10` speaks of removing the `.docx` suffix, but line 11 calls `replace`. That deletes `.docx` wherever it occurs in the file name. `replace` makes a single pass, so a normalised name can still be `.docx` (see `Scenarios.ReplaceIsSinglePass` and `Scenarios.NormalizeCanKeepDocx`).
- The description built at line 95 mentions the course as well as the name and the category.
- The fallback course at line 86 is `其他`.
- The comment at line 76 speaks of skipping chat-log and transcript files. The test at line 77 looks only at the file name, so a record's path can still contain `转写` or `群聊记录` in a directory part.
- Line 97 makes both `雷法` and `禁法` intermediate. No classification rule produces `禁法` (`Spells.ClassifiedDifficulty`).

## Model

| member | source | states |
|---|---|---|
| PyStr.StartsWith | extract_spells.py:16 | `name.startswith(prefix)`: the name is at least as long as the prefix and begins with it; used by `StripFirstPrefixSpec` and `RemoveFirstPrefix` |
| PyStr.Contains | extract_spells.py:26-47 | `k in s`, as in every classification rule and also in the exclusion test at line 77 and the course test at line 86: `k` occurs as a contiguous slice of `s` at some index; its meaning for one character is stated by `ContainsChar` |
| PyStr.DeleteAll | extract_spells.py:11 | `replace(p, '')`: one left-to-right pass that skips each occurrence of `p` and keeps every other character; its meaning is stated by `DeleteAllBounds`, `DeleteAppended` and `DeleteAcross` |
| PyStr.DeleteAllBounds | extract_spells.py:11 | `replace('.docx', '')` never lengthens the name, and leaves a name without `.docx` unchanged |
| PyStr.DeleteAppended | extract_spells.py:10-11 | on a stem free of the extension, `replace` removes exactly the appended extension and gives back the stem |
| PyStr.DeleteAcross | extract_spells.py:11 | an occurrence of `p` after a text free of `p` is deleted whole, and deletion then goes on after it: `replace` on x + p + y is x followed by `replace` on y |
| PyStr.ContainsChar | extract_spells.py:86 | substring test with a one-character key (`'/' in path`) holds exactly when the character occurs |
| PyStr.IsSpace | extract_spells.py:19 | the whitespace set of `str.isspace`, which `strip()` removes; used by `Strip` and `StripIsTrimmedSlice` |
| PyStr.Strip | extract_spells.py:19 | `strip()` keeps at most the input's length; the result is empty iff the input is all whitespace; a non-empty result has no whitespace at either end |
| PyStr.StripIsTrimmedSlice | extract_spells.py:19 | `strip()` returns a contiguous slice of its input, and every character before and after that slice is whitespace |
| Spells.StripFirstPrefix | extract_spells.py:15-18 | removal of the first listed prefix the name starts with; its meaning is stated by `StripFirstPrefixSpec` |
| Spells.StripFirstPrefixSpec | extract_spells.py:13-18 | at most one prefix is removed, and it is the first one in list order that the name starts with; with no matching prefix the name is unchanged |
| Spells.PrefixesStartWithInitials | extract_spells.py:13-14 | every prefix in the list starts with one of `福 小 特 端 0` |
| Spells.RemoveFirstPrefix | extract_spells.py:15-18 | the loop over the prefixes with `break` computes exactly the first-match prefix removal |
| Spells.NormalizedName | extract_spells.py:8-19 | the spell name of a file name: delete `.docx`, remove the first matching prefix, strip; its meaning is stated by `NormalizeDocument`, `NormalizePlainName` and the scenarios |
| Spells.ExtractSpellInfoFromFilename | extract_spells.py:8-19 | the method returns the normalised name: delete `.docx`, remove the first matching prefix, strip; the result has no surrounding whitespace |
| Spells.NormalizeDocument | extract_spells.py:10-11 | for a file named stem + `.docx` with no other `.docx`, normalisation works on the stem alone |
| Spells.NoRecognisedPrefix | extract_spells.py:13-18 | a name whose first character starts no prefix keeps all its text |
| Spells.NormalizePlainName | extract_spells.py:11-19 | when deletion leaves a name that starts no prefix and has no surrounding whitespace, that name is the spell name |
| Spells.Categorize | extract_spells.py:21-50 | the category is always one of the nine labels |
| Spells.AnyIn | extract_spells.py:26-44 | `any(k in name for k in keywords)`; its meaning is stated by `AnyInIsAny` |
| Spells.AnyInIsAny | extract_spells.py:26-44 | `any(k in name for k in keywords)`: the rule's test holds iff some keyword of the list occurs in the name |
| Spells.CategorizeFirstMatch | extract_spells.py:25-50 | the category is the label of the first rule, in priority order, with a keyword in the name, and `综合` when no rule matches |
| Spells.WealthBeforeThunder | extract_spells.py:26-30 | a name with both `财` and `雷` is a wealth spell: priority decides overlaps |
| Spells.GoldIsNeverFiveElements | extract_spells.py:26-42 | `金` is listed by both the wealth and the five-elements rule; a name with `金` is always wealth, never five-elements |
| Spells.DeterminePrice | extract_spells.py:52-65 | the price is positive, one of 666/777/888/999/1288, and 666 for any category outside the table |
| Spells.PriceTableCoversLabels | extract_spells.py:54-64 | the priced categories are exactly the nine labels the classifier returns |
| Spells.PricesByCategory | extract_spells.py:54-64 | the price of each of the nine categories as tabled |
| Spells.GetEffectsByCategory | extract_spells.py:124-137 | four effects; the table entry for a known category, the `综合` entry otherwise |
| Spells.Difficulty | extract_spells.py:97 | the difficulty is `中级` or `初级`, and it is `中级` exactly for `雷法` and `禁法` |
| Spells.ClassifiedDifficulty | extract_spells.py:97 | the classifier never yields `禁法`; a classified name is intermediate iff it is a thunder rite |
| Spells.FirstField | extract_spells.py:86 | `split('/')[0]`: the longest prefix without `/`, ending at the first `/` if there is one |
| Spells.ParentDir | extract_spells.py:86 | the parent of a relative path with `/` is the text before its last `/` |
| Spells.FirstFieldNoSlash | extract_spells.py:86 | a text without `/` is its own first field |
| Spells.FirstFieldOfPrefix | extract_spells.py:86 | cutting a path at any `/` keeps its first field, so the parent's first field is the path's |
| Spells.Course | extract_spells.py:85-86 | the course of a relative path; its meaning is stated by `CourseIsFirstSegment` |
| Spells.CourseIsFirstSegment | extract_spells.py:85-86 | the course is the first `/`-segment of the relative path, and `其他` for a file directly under the root |
| Spells.Description | extract_spells.py:95 | the one-sentence description; its layout is stated by `DescriptionFields` |
| Spells.DescriptionFields | extract_spells.py:95 | the description opens with the name and carries the course and the category in their fixed places |
| Scenarios.NormalizeWelfarePrefix | extract_spells.py:8-19 | `福利一：` + name + `.docx` normalises to the name |
| Scenarios.NormalizeWithoutPrefix | extract_spells.py:8-19 | name + `.docx` normalises to the name when no prefix applies |
| Scenarios.ReplaceIsSinglePass | extract_spells.py:11 | `.do.docxcx` becomes `.docx`: removal is a single pass |
| Scenarios.NormalizeCanKeepDocx | extract_spells.py:11-19 | a file name that `replace` turns into `.docx` is listed under the name `.docx` |
| Scenarios.ExorcismAfterFirstThree | extract_spells.py:25-36 | a name with `煞` and no wealth, thunder or blessing keyword is an exorcism spell |
| Scenarios.CourseOfNestedFile | extract_spells.py:85-86 | a file anywhere below top-level directory `dir` has course `dir` |
| Catalog.MakeSpell | extract_spells.py:80-98 | the record built for a file is well formed: its price, effects, difficulty and description agree with its category, name and course; it carries the given id and the file's path |
| Catalog.Excluded | extract_spells.py:77-78 | a file is skipped when its name contains `群聊记录` or `转写`; used by `KeptIsFilter` |
| Catalog.Assembled | extract_spells.py:71-101 | the records the loop appends, numbered from a start id; its meaning is stated by `AssembledIsKeptNumbered`, `AssembledIds` and `AssembledWellFormed` |
| Catalog.Kept | extract_spells.py:75-78 | filtering never adds files |
| Catalog.KeptIsFilter | extract_spells.py:75-78 | the kept files are exactly the walked files whose name contains neither `群聊记录` nor `转写` |
| Catalog.AssembledIsKeptNumbered | extract_spells.py:71-101 | one record per kept file, in walk order; the k-th record is built from the k-th kept file under id `1 + k` |
| Catalog.AssembledIds | extract_spells.py:72-101 | ids run 1, 2, 3, … in record order, so they are distinct |
| Catalog.AssembledWellFormed | extract_spells.py:88-101 | every record is well formed and its id lies between 1 and the number of records |
| Catalog.WellFormedAttributes | extract_spells.py:93-97 | a record is intermediate iff it is a thunder rite; its price is positive and it lists four effects |
| Catalog.SameCategorySameAttributes | extract_spells.py:93-97 | two records of one category have the same price, effects and difficulty |
| Catalog.AssembleSpells | extract_spells.py:71-101 | the building loop produces exactly the numbered records of the kept files |
| Catalog.StrLe | extract_spells.py:104 | Python's code-point order on strings; its properties are stated by `StrLeTotal`, `StrLeAntisymmetric` and `StrLeTransitive` |
| Catalog.StrLeTotal | extract_spells.py:104 | code-point string order is total |
| Catalog.StrLeAntisymmetric | extract_spells.py:104 | code-point string order is antisymmetric |
| Catalog.StrLeTransitive | extract_spells.py:104 | code-point string order is transitive |
| Catalog.KeyLe | extract_spells.py:104 | the order on `(category, name)` keys: category first, then name; its properties are stated by `KeyLeTotal` and `KeyLeTransitive` |
| Catalog.KeyLeTotal | extract_spells.py:104 | the (category, name) tuple order is total |
| Catalog.KeyLeTransitive | extract_spells.py:104 | the (category, name) tuple order is transitive |
| Catalog.SortSpells | extract_spells.py:104 | the in-place sort leaves the records in (category, name) order and is a permutation |
| Catalog.InsertLast | extract_spells.py:104 | one insertion step extends the sorted prefix by one record, permutes that prefix, leaves the rest of the array unchanged and so permutes the whole array |
| Catalog.SwapBack | extract_spells.py:104 | exchanging two neighbouring records changes nothing else and permutes the array |
| Catalog.SwapStep | extract_spells.py:104 | moving the inserted record one place down keeps the records before it sorted and the records after it above it |
| Catalog.InsertionDone | extract_spells.py:104 | once the inserted record is not below its left neighbour, the whole prefix is sorted |
| Catalog.SamePrefixMultiset | extract_spells.py:104 | a permutation that leaves a suffix in place permutes the prefix before it |
| Catalog.PermutationKeepsIdsDistinct | extract_spells.py:101-104 | reordering records with distinct ids keeps the ids distinct |
| Catalog.CountOf | extract_spells.py:113-116 | the number of records of a category; related to the counting loop by `CountCategories` |
| Catalog.CountOfAbsent | extract_spells.py:113-116 | a category no record has is counted zero times |
| Catalog.CountCategories | extract_spells.py:113-116 | the counting loop has one key per category that occurs, mapped to its number of records |
| Catalog.SumOfCountsIsLength | extract_spells.py:113-116 | summing per-category counts over a duplicate-free list of all categories gives the number of records |
| Catalog.CountsSumToTotal | extract_spells.py:113-116 | the counts over the nine labels add up to the number of records |
| Catalog.ExtractCatalog | extract_spells.py:67-122 | the run's output is a permutation of the numbered kept records, one per kept file, sorted by (category, name), with distinct ids in 1..n, every record well formed, and per-category counts that sum to n |

## Left out

- The directory walk (`rglob("*.docx")`) and `relative_to` are not modelled. The walk's result is the input sequence of files, in its order. Each file's path relative to the root is taken as given, with `/` separators and no `.` or empty segments, as pathlib produces them.
- Writing the JSON file (`json.dump`) is not modelled; it is file I/O. Its result is the sorted record sequence.
- The console output is not modelled: the record count and the sorted per-category listing. The counts dictionary it prints is modelled.
- The hard-coded input and output paths are not modelled; they are configuration.
- The unused `re` import and the unused `name_lower` are not modelled; they affect nothing.
- Catalog.SortSpells: does not state stability. `list.sort` is stable, but records of equal category and name keep their walk order only in the source; the model proves order and permutation only.
- Catalog.SortSpells: it is an insertion sort. It does not reproduce the comparisons Timsort makes, only its result up to the order of equal keys.
- Spells.Course: takes `str(rel_path)` and `str(rel_path.parent)` on POSIX-style paths. Windows separators are out of scope.
- Catalog.SourceFile: the model does not relate a file's `name`, `relPath` and `path` to each other. In the source all three come from one `Path`; here they are independent inputs.
