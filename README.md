# Budget line classifier: labelling and text features, in Dafny

This project models the discrete core of a budget-line classifier. The classifier sorts bank-statement lines into spending categories.

**Data.py: the text-to-features pipeline.**
- **Tokeniser.** `re.split(' |/|-', …)` cuts a description at every space, slash or hyphen. Empty fragments are kept.
- **Keyword miner (`create_word_list`).** It counts the tokens of the training descriptions, ignoring the last two tokens of each description and tokens that are too short or numeric. It keeps those seen more than once, in first-seen order.
- **Bag-of-words encoder (`description_to_one_hot`).**
- **Older encoder (`data_to_one_hot`).** It has its own counting rule and builds a one-hot label matrix.
- **Class lookups.** `one_hot_to_class`, and `preprocess_data`, which builds the feature matrix and the `get_dummies` label matrix.
- **Console labelling.** Both forms of `classify_data`, with their readline completer `complete`.

**description_labeler.py: label acquisition.**
- **`DescriptionLabeler`.** A cursor over the descriptions, one label per description, and a category list.
- **`AutocompleteEntry`.** Its category list and its case-insensitive prefix-completion rule.
- **The labelling window's `enter_label` / `update_description` protocol.**

## How the model is organised

| module | file | what it holds |
|---|---|---|
| `Wrappers` | wrappers.dfy | `Option` and `Result` |
| `Seqs` | seqs.dfy | counts, Python's list idioms as functions, and their lemmas |
| `Text` | text.dfy | the tokeniser and the ASCII string methods |
| `Vocabulary` | vocabulary.dfy | reference definitions of the keyword list and the encoding, with their properties |
| `Labeling` | labeling.dfy | the answer protocol and the completion filter |
| `Data` | data.dfy | the module-level functions of Data.py and the `ModelData` class |
| `DescriptionLabeling` | description_labeler.dfy | the three classes of description_labeler.py |

**Seqs.**
- `Extend(acc, s)` is "`if x not in acc: acc.append(x)`" run for every `x` of `s`.
- `Distinct` is pandas' `unique()`.
- `FirstIndex` is `list.index`.
- `KeepWhere` is an order-preserving filter.

**Data and DescriptionLabeling.** Code that changes state step by step is imperative Dafny:
- `classify_data`, the counting loops, the `one_hot` array of `description_to_one_hot` and the row loop of `preprocess_data` are methods with loop invariants;
- `ModelData`, `DescriptionLabeler`, `AutocompleteEntry` and the window are classes.

Each method is proved equal to a reference function. The promised properties are proved about those functions.

**Inputs, answers and state.**
- **Console answers.** They are a parameter `answers`, one per row, read in order.
- **`raw_data`.** It is modelled by its `Description` column and its optional `Class` column. A missing cell (NaN) is `None`.
- **The shared category list.** In description_labeler.py one Python list is shared by the labeler and the autocomplete entry. The model gives it a class of its own, `CategoryList`, held by reference.
- **The class-level default list.** The list that `DescriptionLabeler` keeps at class level is passed to the constructor as `classDefault`.

**Behaviours of the code worth knowing:**
- **The keyword list is not uppercased.** `create_word_list` stores tokens as they are written. Only `description_to_one_hot` uppercases description tokens. So a keyword with a lower-case letter can never be matched (`Vocabulary.LowercaseKeywordNeverSet`).
- **Negative indices are accepted.** `one_hot_to_class` accepts Python's negative indices. It fails only outside `-len .. len-1`.
- **The category list is shared.** The labeler's default category list is one list for every labeler built without one, rather than per-instance state.
- **Empty and numeric tokens.** The empty string is not numeric (`''.isnumeric()` is false). So `data_to_one_hot` counts empty tokens, and `create_word_list` keeps a token such as `##`.

## Model

| member | source | states |
|---|---|---|
| Text.SplitAtDelimiter | Data.py:64 | each delimiter ends the current token, and the rest of the string is split independently |
| Text.Split | Data.py:144 | the tokeniser gives one token more than there are delimiters (space, slash, hyphen), and no token holds a delimiter |
| Text.SplitLength | Data.py:144 | the tokeniser returns exactly one more token than there are delimiters, empty tokens included |
| Text.SplitTokensClean | Data.py:253 | no token contains a space, slash or hyphen |
| Text.SplitWhole | Data.py:144 | a string without delimiters is a single token |
| Text.RemoveHash | Data.py:255 | `replace('#', '')` leaves no `#` and never lengthens the string |
| Text.RemoveHashKeeps | Data.py:255 | `replace('#', '')` leaves a string without `#` unchanged |
| Text.Upper | Data.py:147 | `upper()` keeps the length and leaves no lower-case ASCII letter |
| Text.Lower | Data.py:197 | `lower()` keeps the length and leaves no upper-case ASCII letter |
| Text.IsNumeric | Data.py:66 | the empty string is not numeric; a numeric string holds only digits, so no `#` and nothing that uppercasing changes |
| Text.MatchesPrefix | description_labeler.py:94 | every word matches the empty text, and no word matches a text longer than itself |
| Seqs.Count | Data.py:256-259 | the occurrence count is positive exactly for elements of the list |
| Seqs.FirstIndex | Data.py:149 | `list.index` returns a position holding the element, with no earlier occurrence |
| Seqs.Extend | Data.py:54-55 | guarded appends never remove an element and add at most one per element offered |
| Seqs.ExtendSpec | Data.py:54-55 | guarded appends keep the old list as a prefix, add exactly the new elements, and never add a duplicate |
| Seqs.Distinct | Data.py:75 | `unique()` is duplicate-free and no longer than its input |
| Seqs.DistinctFirstSeen | Data.py:75 | `unique()` is duplicate-free, holds exactly the input's values, and follows first-seen order |
| Seqs.KeepWhere | Data.py:262 | a filter keeps exactly the selected keys, and stays duplicate-free when its input is |
| Seqs.KeepWhereFirstSeen | Data.py:265 | a filter preserves first-seen order |
| Seqs.KeysAbove1IsKeepWhere | Data.py:72 | the dict comprehension `v > 1` keeps the keys, in insertion order, whose count exceeds 1 |
| Vocabulary.DropLastTwo | Data.py:253 | `[:-2]` is the prefix without the last two tokens, and is empty for two or fewer |
| Vocabulary.Minable | Data.py:255 | a counted token has at least two characters and is never all digits |
| Vocabulary.MinableTokens | Data.py:255 | the counted tokens of a description are exactly those of length at least 2 that are not all digits once `#` is removed |
| Vocabulary.MinedTokenOrigin | Data.py:252-255 | a token is counted exactly when it passes the filter and lies outside the last two tokens of some description |
| Vocabulary.MinedTokensConcat | Data.py:252 | mining a concatenated corpus mines each part in turn |
| Vocabulary.ShortDescriptionIgnored | Data.py:253 | a description with two or fewer tokens leaves the keyword list unchanged, wherever it stands |
| Vocabulary.WordList | Data.py:246-267 | the keyword list is duplicate-free and no longer than the list of counted tokens |
| Vocabulary.WordListSpec | Data.py:251-265 | the keyword list is duplicate-free, holds exactly the counted tokens occurring at least twice, and follows first-seen order |
| Vocabulary.WordListEntries | Data.py:252-262 | every keyword passes the filter and comes from outside the last two tokens of some description |
| Vocabulary.EncodeSet | Data.py:145-149 | one 0/1 entry per keyword, set only for keywords in the set of uppercased tokens |
| Vocabulary.Encoding | Data.py:139-151 | the vector has one 0/1 entry per keyword |
| Vocabulary.EncodeSetAdd | Data.py:148-149 | one more uppercased token sets at most the bit at that keyword's first position |
| Vocabulary.EncodingMeaning | Data.py:144-151 | over a duplicate-free keyword list the vector has one 0/1 entry per keyword, and bit i is 1 exactly when some uppercased token equals keyword i |
| Vocabulary.EncodingIgnoresOrder | Data.py:146-149 | two descriptions with the same set of tokens get the same vector, whatever the order or repetition |
| Vocabulary.LowercaseKeywordNeverSet | Data.py:147-149 | a keyword that is not already upper case is never matched |
| Labeling.CategoryOf | Data.py:47-48 | an empty answer becomes "Other", so no stored label is empty |
| Labeling.HaltIndex | Data.py:49-50 | labelling stops at the first "q" answer, or uses every answer when there is none |
| Labeling.Answered | Data.py:44-51 | one category per answer before the first "q", none of them "" or "q" |
| Labeling.Labels | Data.py:32-51 | one label per row, non-empty exactly for the rows before the first "q" |
| Labeling.LabelsPrefix | Data.py:44-51 | one label per row; labelled rows form a prefix ending at the first "q"; each holds its answer with "" read as "Other" |
| Labeling.LabelsOfPlainAnswers | test_classify_data.py:16-28 | with no empty or "q" answer the labels are the answers themselves |
| Labeling.StopExample | Data.py:46-51 | the answers "", "q", "X" give the labels "Other", "", "" |
| Labeling.CategoriesGrow | Data.py:213-214 | the category list keeps its old entries as a prefix, gains exactly the new answers, and stays duplicate-free |
| Labeling.Completions | description_labeler.py:94 | the completions are exactly the listed words that the text starts, compared in lower case |
| Labeling.CompletionsInOrder | Data.py:38 | the completions keep the list's order |
| Labeling.CompletionsOfEmpty | Data.py:197 | every word completes the empty text |
| Data.Complete | Data.py:36-39 | `complete(text, state)` gives the state-th completion, then None just past the last one, then an IndexError |
| Data.ClassifyData | Data.py:28-57 | the rows are returned unchanged; the labels are the protocol's labels; the completer's list is the distinct used categories in first-seen order |
| Data.FrequentKeys | Data.py:62-74 | the keyword keys are duplicate-free, and each is non-numeric and counted more than once |
| Data.FeatureRow | Data.py:77 | a feature row is as wide as the keys; bit j is 1 exactly when key j is a token of the row, compared as written |
| Data.LabelRow | Data.py:78 | a label row is as wide as the label keys, all zeros for a label not among them, and over distinct keys has a single 1 at the label's position |
| Data.OneHot | Data.py:59-80 | both key lists are duplicate-free; one feature row per description and one label row per label, each as wide as its keys |
| Data.CountStep | Data.py:65-69 | one counting step keeps the dict's invariant: keys are the tokens seen, in first-seen order; a numeric token counts 1, any other its occurrences |
| Data.CountTokens | Data.py:65-69 | the inner counting loop adds one row's tokens to the count dict under that invariant |
| Data.DataToOneHot | Data.py:59-80 | `data_to_one_hot` returns exactly the keys and matrices of `OneHot` |
| Data.CountsGiveKeys | Data.py:72-74 | the filtered count dict gives the keyword keys |
| Data.FrequentKeysSpec | Data.py:62-74 | the keyword keys are duplicate-free, are exactly the non-numeric tokens seen at least twice, and follow first-seen order; a numeric token is never a key |
| Data.OneHotShape | Data.py:77-78 | one feature row per description, as wide as the keys, with bit j set exactly when key j is a token of the row; each label row has a single 1, at its label's position |
| Data.OneHotExample | test_classify_data.py:38-54 | rows a, b, c, a, b labelled one, two, three, one, two give keys [a, b] and [one, two, three] and the matrices the tests expect |
| Data.ClassIndices | Data.py:176 | `Class`-to-index lookup: each row's first position in `class_names`, or failure at the first row whose class is missing or unlisted |
| Data.DummyColumns | Data.py:182 | the `get_dummies` columns are exactly the indices present, in ascending order |
| Data.Dummies | Data.py:182 | one `get_dummies` row per class index, as wide as the columns, holding a 1 exactly when its index is a column |
| Data.DummyRow | Data.py:182 | one `get_dummies` row, as wide as the columns, holding a 1 exactly when its value is a column |
| Data.DummiesOneHot | Data.py:182 | every `get_dummies` row has exactly one 1, in the column of its class index |
| Data.DummyColumnsFull | Data.py:182 | when every class index occurs, the columns are 0 .. n-1 |
| Data.LabelRoundTrip | Data.py:153-158 | when every class occurs, label row i is the unit vector at its class index, and `one_hot_to_class` of that index gives back the class |
| Data.EveryIndexOccurs | Data.py:176 | over duplicate-free names that all occur, every index is some row's class index |
| Data.Features | Data.py:166-173 | the feature matrix has one row per description, each as wide as the keyword list |
| Data.FeaturesShape | Data.py:166-173 | the feature matrix has one row per description, as wide as the keyword list, with bits as `description_to_one_hot` sets them |
| Data.MineStep | Data.py:256-259 | one counting step of `create_word_list` keeps the dict's keys in first-seen order with their occurrence counts |
| Data.CountMinable | Data.py:254-259 | the inner loop counts exactly the tokens that pass the filter |
| Data.LabelStep | Data.py:210 | labelling one row creates the `Class` column if needed and writes that row's class |
| Data.NamesStep | Data.py:213-214 | labelling one row appends a new class once and keeps `class_names` duplicate-free |
| Data.LabelledColumn | Data.py:203-210 | after console labelling the `Class` column is missing only when it was missing and the first answer is "q"; otherwise it has one cell per row |
| Data.LabelledColumnSpec | Data.py:203-210 | after console labelling the `Class` column is missing when the first answer is "q"; otherwise labelled rows hold their classes and the rest are NaN |
| Data.PreprocessAfterFullLabelling | Data.py:169-182 | when every row was labelled, every row's class is found |
| Data.PreprocessAfterEarlyStop | Data.py:176 | when "q" stopped labelling early, the lookup fails at the first unlabelled row |
| Data.ClassIndicesStopsAt | Data.py:176 | the lookup fails at the first NaN cell when every earlier cell is listed |
| Data.LabelledCellsListed | Data.py:210-214 | every labelled cell holds a class that `class_names` lists |
| Data.ColumnClassesCover | Data.py:89-90 | with classes taken from the `Class` column, the lookup succeeds exactly when no cell is NaN |
| Data.Present | Data.py:90 | the present cells of a column are exactly its non-NaN values |
| Data.ModelData.constructor | Data.py:84 | stores the raw table with nothing derived yet |
| Data.ModelData.CreateWordList | Data.py:246-267 | the method returns exactly the reference keyword list, so `WordListSpec` applies to it |
| Data.ModelData.DescriptionToOneHot | Data.py:139-151 | the method returns exactly the reference encoding, so `EncodingMeaning` applies to it |
| Data.ModelData.OneHotToClass | Data.py:153-158 | succeeds exactly for indices in `-len .. len-1`, returning `class_names` at that index (counted from the end when negative) |
| Data.ModelData.PreprocessData | Data.py:160-187 | with an empty keyword list and at least one row it fails before anything else (the frame has no columns to store a row in); otherwise False with no `Class` column, failure at the first unlisted class, or X the encoded descriptions and y the `get_dummies` of the class indices; the matrices change only on success |
| Data.ModelData.ClassifyData | Data.py:190-214 | the `Class` column becomes the labelled column; `class_names` grows by each new class once, in first-seen order |
| Data.ModelData.Create | Data.py:83-95 | the raw-data branch of `__init__`: keyword list mined, class list taken from the column or asked for; the outcome is that of preprocessing the labelled table (failure for an empty keyword list, False with no `Class` column, the first unlisted row, or the two matrices) |
| DescriptionLabeling.CategoryList.constructor | description_labeler.py:10 | a category list object holding the given names; whoever holds it sees the same list |
| DescriptionLabeling.AddOnce | description_labeler.py:66-69 | `add_label` appends the label exactly when it is absent |
| DescriptionLabeling.AddOnceSpec | description_labeler.py:66-69 | adding keeps the list duplicate-free, puts the label in it, and adding it twice equals adding it once |
| DescriptionLabeling.CurrentDescription | description_labeler.py:21-26 | the description under the cursor, or "" past the end; it is "" exactly when the cursor is past the end or the description itself is empty |
| DescriptionLabeling.DescriptionLabeler.constructor | description_labeler.py:13-19 | cursor 0, one empty label per description, and the supplied category list when it is non-empty, otherwise the class-level one |
| DescriptionLabeling.DescriptionLabeler.GetCurrentDescription | description_labeler.py:21-26 | agrees with `CurrentDescription` on the labeler's state |
| DescriptionLabeling.DescriptionLabeler.Label | description_labeler.py:28-31 | with the cursor in range, only the current label changes and the cursor moves on by one; past the end it fails and nothing changes |
| DescriptionLabeling.DescriptionLabeler.GetLabels | description_labeler.py:37-39 | one label per description, "" for every description not yet labelled |
| DescriptionLabeling.DescriptionLabeler.GetCategories | description_labeler.py:33-35 | the contents of the labeler's category list |
| DescriptionLabeling.DescriptionLabeler.GetLabeledDescriptions | description_labeler.py:41-43 | one (label, description) pair per description, label first, in list order |
| DescriptionLabeling.FreshLabeledDescriptions | test_description_labeler.py:37-40 | a fresh labeler pairs every description with the empty label |
| DescriptionLabeling.AutocompleteEntry.constructor | description_labeler.py:48-56 | the entry starts with empty text, no completions and no listbox, over the given list |
| DescriptionLabeling.AutocompleteEntry.SetLabelList | description_labeler.py:62-64 | the entry now offers the given list |
| DescriptionLabeling.AutocompleteEntry.AddLabel | description_labeler.py:66-69 | the shared list gains the label exactly when it lacked it |
| DescriptionLabeling.AutocompleteEntry.Changed | description_labeler.py:91-105 | the listbox is open exactly when the text is non-empty and has completions, and then it shows exactly those completions in list order |
| DescriptionLabeling.AutocompleteEntry.Get | description_labeler.py:129-131 | the entry's current text |
| DescriptionLabeling.AutocompleteEntry.Set | description_labeler.py:133-135 | sets the text and reruns the completion rule on it |
| DescriptionLabeling.LabelerGUI.constructor | description_labeler.py:141-158 | the entry is built over the labeler's own category list, so both hold one list; the current description is shown |
| DescriptionLabeling.LabelerGUI.UpdateDescription | description_labeler.py:174-181 | shows the current description and reports true exactly when it is not "" |
| DescriptionLabeling.LabelerGUI.EnterLabel | description_labeler.py:160-172 | the category list gains the entered label iff absent; the current row gets the label, the cursor advances, and the entry is cleared; completion is reported exactly when the new current description reads "", and the window then shows the completion message; past the end the labelling fails after the list has grown, with the entry text and the shown text unchanged |
| DescriptionLabeling.LabelerGUI.OnComplete | description_labeler.py:184-189 | marks labelling complete and shows the completion message |

## Left out

- Model.py, Net.py and main.py: network training and inference are floating-point numerics in a foreign library. Arg-max over float tensors is left out too. The one discrete step, `class_names[out]`, is `ModelData.OneHotToClass`.
- gui/main.py, log.py and payment_processor.py: widget set-up, file dialogs, logging, and an iterator that returns None.
- Data.py file I/O: `load_meta_data`, `save_meta_data`, `load_data` and `save_data` (pickle and CSV files). The load branch and the no-data branch of `ModelData.__init__` go with them. `Data.ModelData.Create` models the raw-data branch up to the assertion on `preprocess_data`. `Ok(true)` is the only outcome that gets past that assertion.
- `input()` and the `readline` bindings: answers are a parameter, and the completer is the pure function `Data.Complete`. Which `state` values readline asks for is not modelled.
- Data.ModelData.Create: takes `class_names` from an existing `Class` column as a list (`Data.Present`, then `Distinct`). In the source, `Series.unique()` returns a numpy array. That array has no `index` method, so `preprocess_data` on a non-empty table with a `Class` column raises AttributeError. NaN cells are dropped from the class list rather than kept as a NaN entry.
- Data.ModelData.PreprocessData: the pandas row labels of `X.loc[index]` and the dtype of `get_dummies` (booleans in recent pandas) are not modelled. Matrices are sequences of 0/1 rows.
- Data.ClassifyData: the `pd.Series` row index is the position in the list.
- Data.ColumnClassesCover: states the lookup with `class_names` read as a list. As written, a table that arrives with a `Class` column gets a numpy array from `unique()`, and `preprocess_data` raises AttributeError on it for any non-empty table. The lemma describes the evidently intended behaviour, not that failure.
- Data.ModelData.ClassifyData: the prompt formats `row["Transaction Amount"]` with `:.2f`. The model has no amount column, so the KeyError for a table without that column and the ValueError for a non-numeric amount are not modelled.
- Data.ModelData.ClassifyData: `raw_data.loc[index, 'Class']` assigns by row label. The model writes by position, which agrees with the source only for the default 0 .. n-1 index.
- DescriptionLabeling.DescriptionLabeler.GetLabels: returns the labels as a value. In the source `get_labels` returns the live list, so a caller that changes it changes the labeler; that aliasing is not modelled.
- Unicode: `upper`, `lower` and `isnumeric` are ASCII-only. Other characters pass through unchanged and are never digits.
- AutocompleteEntry widget mechanics: `down`, `up`, `focus`, `selection` and the listbox geometry of `listbox_update` are left out. `selection` copies the focused listbox item into the text. It depends on widget focus state and is not modelled. `Changed` reduces the listbox to whether it is open and which completions it lists.
- DescriptionLabeling.LabelerGUI.EnterLabel: the entry's focus call is left out. On a failed label assignment the source raises, while the model returns false. The button that triggers `enter_label` exists only until `on_complete`, which the model states as the precondition `!complete`.
- DescriptionLabeling.DescriptionLabeler.constructor: `charge_description_list` is held by reference in the source and as a value here; changes the caller makes to that list later are not modelled.
- DescriptionLabeling.DescriptionLabeler.constructor: Python's class-level `categories` list is modelled as the `classDefault` argument, because Dafny has no mutable class-level state. Callers that want the source's sharing pass the same object every time.
