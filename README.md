# A4 price labels, modelled in Dafny

The program reads a spreadsheet of products: name (`اسم الصنف`), selling price (`سعر البيع`) and regular price (`السعر الاصلي`). It writes an HTML document of price labels, 21 to an A4 page. This project models its whole logic:

- **Loader** (`loader.dfy`). The rule applied when the sheet is loaded. All three columns must exist. A row without a name or a selling price is dropped. An empty regular price becomes 0.
- **HtmlEscape** (`escape.dfy`). `html.escape` on the product name: five successive replacements, `&` first.
- **Price** (`price.dfy`). A price printed with two decimals. Prices are whole numbers of hundredths.
- **Label** (`label.dfy`). `create_label_html`: one label fragment with a header, a body and a footer. Beside it is a reader that takes a fragment apart again.
- **Paginator** (`paginator.dfy`). `generate_pages`: the records are cut into consecutive groups of 21, and each group is wrapped in a page container marked `data-labels-no="21"`. It is an imperative method with the source's two nested loops. The method takes the label renderer as a parameter; the document passes `Label.RecordLabel` (`create_label_html`), so the page proofs hold for any renderer.
- **Assembler** (`assembler.dfy`). The pages are joined with newlines and spliced into the template between `<div class="a4-pages">` and the first following `</div>`, whitespace, `</body>`. The regex is modelled as an explicit search, and `GenerateLabels` composes the whole run.
- `wrappers.dfy` (Option) and `text.dfy` (prefixes, reading up to a character, indentation) are shared helpers.

The model follows what the code does, including three behaviours a reader might expect to be different:

- **Missing column.** A missing column only prints a warning (lines 19-21), as if loading could go on. It cannot: `dropna(subset=…)` and `df['السعر الاصلي']` raise inside the `try`, so loading returns `None` (`Loader.LoadCsv`).
- **Unmatched marker.** A template without the `a4-pages` region is not an error. The code returns the template unchanged (`Assembler.SpliceSpec`).
- **Blank names.** Only empty (NaN) name cells are dropped. A name made only of blanks is kept.

## Model

| member | source | states |
|---|---|---|
| Loader.LoadCsv | generate_labels.py:8-32 | Loading fails (None) exactly when one of the three required columns is absent; otherwise the result is the kept rows |
| Loader.KeepRows | generate_labels.py:23-27 | Characterised by `KeptAreCompleteRowsInOrder`, `KeepRowsAppend` and `KeepRowsCount` below |
| Loader.KeptAreCompleteRowsInOrder | generate_labels.py:23-27 | The k-th loaded record comes from the k-th row that has both a name and a selling price (`Loader.Filled`): it takes that row's name and selling price, and its regular price, or 0 where that cell is empty. Source positions ascend and every such row is kept |
| Loader.KeepRowsAppend | generate_labels.py:23-27 | Loading a sheet made of two parts gives the first part's records followed by the second's (row order is kept) |
| Loader.KeepRowsCount | generate_labels.py:23-24 | Kept records = input rows - rows missing name or selling price |
| Loader.KeptRegularPrice | generate_labels.py:26-27 | Record k's regular price is the value in its own source row (the k-th complete row), or 0 when that cell is empty |
| HtmlEscape.Escape | generate_labels.py:37 | Characterised by `EscapeIsPerCharacter`, `EscapedIsInert` and `UnescapeEscape` below |
| HtmlEscape.EscapeIsPerCharacter | generate_labels.py:37 | Five successive replacements with `&` first equal escaping each character once, so no entity is ever escaped twice |
| HtmlEscape.EscapedIsInert | generate_labels.py:37 | The escaped name contains no `<`, `>`, `"` or `'`, and every `&` in it begins one of the five entities |
| HtmlEscape.UnescapeEscape | generate_labels.py:37 | Unescaping the escaped name gives back the name exactly |
| Price.FormatPrice | generate_labels.py:40 | A printed price is an optional `-` and digits, then `.`, then exactly two digits; it has a `-` exactly when the price is negative; the whole part has no leading zero (a `0` after the optional sign is followed by `.`) |
| Price.PriceRoundTrip | generate_labels.py:40 | Reading a printed price back gives the same number of hundredths |
| Price.TwelveFifty | generate_labels.py:46 | 12.5 prints as `12.50` |
| Price.ZeroPrice | generate_labels.py:46 | 0 prints as `0.00` |
| Price.MinusFivePiastres | generate_labels.py:46 | -0.05 prints as `-0.05` |
| Label.FooterHtml | generate_labels.py:43-54 | Characterised by `ParseRenderedFooter` below |
| Label.LabelHtml | generate_labels.py:34-64 | Characterised by `ParseRenderedLabel` and `ReadRenderedLabel` below |
| Label.ParseRenderedFooter | generate_labels.py:43-54 | The footer block always parses as a footer; it shows the printed regular price exactly when that price is > 0, and is the empty footer div otherwise |
| Label.ParseRenderedLabel | generate_labels.py:34-64 | A label splits into its slots: the escaped name, the printed selling price, and the printed regular price exactly when it is > 0 |
| Label.ReadRenderedLabel | generate_labels.py:56-64 | Reading a label gives back the name, the selling price and, exactly when it is > 0, the regular price, so no name can change the label's structure |
| Paginator.PageHtml | generate_labels.py:101-105 | Characterised by `CapacityIsConstant` and `GeneratePages` below |
| Paginator.LabelsHtml | generate_labels.py:92-98 | Characterised by `LabelsHtmlAppend`, `PagesCarryAllLabels` and `GeneratePages` below |
| Paginator.PageRows | generate_labels.py:87-89 | Characterised by `ChunksAreSlices` and `GeneratePages` below |
| Paginator.Chunks | generate_labels.py:86-89 | Characterised by `ChunksAreSlices`, `ChunkSizes` and `FlattenChunks` below |
| Label.RecordLabel | generate_labels.py:94-98 | Characterised by `ReadRenderedLabel` below, applied to the record's three fields |
| Paginator.PageCount | generate_labels.py:80-82 | Characterised by `PageCountIsCeiling` below |
| Paginator.PageCountIsCeiling | generate_labels.py:80-82 | `(n + 20) // 21` is ceil(n / 21): enough pages for every row, no empty page, and zero pages exactly for zero rows |
| Paginator.PageStartInRange | generate_labels.py:86-88 | Every page number below the page count starts inside the rows |
| Paginator.ChunksAreSlices | generate_labels.py:86-89 | There are ceil(n / 21) groups, and group k is exactly rows 21k .. min(21k + 21, n) - 1 |
| Paginator.ChunkSizes | generate_labels.py:87-89 | Every page except the last holds 21 rows; the last holds 1 to 21 |
| Paginator.FlattenChunks | generate_labels.py:86-98 | Concatenating the pages' rows reproduces all rows in their original order |
| Paginator.LabelsHtmlAppend | generate_labels.py:92-98 | The labels of two runs of records are the first run's labels followed by the second's |
| Paginator.PagesCarryAllLabels | generate_labels.py:91-98 | The pages' label texts, read in page order, are the labels of all records in order |
| Paginator.CapacityIsConstant | generate_labels.py:101-105 | Every page container carries `data-labels-no="21"`, whatever labels the page holds |
| Paginator.PagesFollowChunks | generate_labels.py:86-107 | Pages built from the slices 21k .. min(21k + 21, n) are the rendered groups of 21 |
| Paginator.GeneratePages | generate_labels.py:78-109 | Returns ceil(n / 21) as the page count; page k is the container around the labels of rows 21k .. min(21k + 21, n) - 1, i.e. of group k |
| Assembler.EndsAtMeansPattern | generate_labels.py:140 | Skipping the whole whitespace run after `</div>` finds `</body>` exactly when `</div>\s*</body>` matches there |
| Assembler.FindFrom | generate_labels.py:140 | Returns the first index at or after `from` where the text occurs, or None when it occurs nowhere after it |
| Assembler.FindEnd | generate_labels.py:140 | Returns the first index at or after `from` where `</div>\s*</body>` matches (the lazy `.*?`), or None |
| Assembler.Splice | generate_labels.py:140-144 | Characterised by `SpliceSpec` below |
| Assembler.SpliceSpec | generate_labels.py:140-144 | With no match the template is unchanged. A match implies a first match (leftmost start, shortest end). For it the output is the template up to and including the start marker, then `"\n" + pages + "\n    "`, then the template from the matched `</div>` on |
| Assembler.Join | generate_labels.py:134 | Characterised by `JoinAppend` below |
| Assembler.JoinAppend | generate_labels.py:134 | Joining two non-empty runs of pages is joining each run, with one separator between the two results |
| Assembler.GenerateLabels | generate_labels.py:111-144 | Fails when loading fails or the template is missing; otherwise returns the template spliced with the pages of the loaded records joined by newlines |
| Assembler.TwentyThreeRowsOneDropped | generate_labels.py:23-24 | 23 rows with one missing its selling price give 22 records on two pages of 21 and 1 labels |

## Left out

- File I/O is out of scope: reading the CSV (`pd.read_csv`), `load_template` and writing the output file. The template is a parameter, and `None` stands for a template that could not be read. The write, and its failure, are not modelled.
- pandas parsing is not modelled: cell parsing, whitespace-stripping of column headers, and a name column that pandas reads as numbers. The model starts from parsed rows whose empty cells are `None`.
- The missing-column warning printed at lines 19-21 is not modelled. Console output and the boolean success flag of `generate_labels` and `__main__` are not modelled either.
- Floating-point prices are not modelled. Prices are exact whole numbers of hundredths, so `.2f` rounding of values with more decimals, and text that `float()` rejects, are not covered.
- The splice stops at the first match. `re.sub` replaces every non-overlapping match, so a template with several `a4-pages` regions is covered only for its first.
- The replacement text is spliced literally. `re.sub` reads backslash escapes in it, and `html.escape` leaves backslashes alone, so a product name containing `\` is not inserted literally by the program. Worse, `re.sub` raises `re.error` when a `\` is followed by an ASCII letter that is not a known escape (a name such as `C:\data` gives `\d`), and `\g<…>` other than `\g<0>` to `\g<2>`, or a group reference `\3` and above, raise as well (`re.error` or `IndexError`). The call at line 144 and the call from `__main__` are outside any `try`, so the run aborts and writes no output. The model has no such error path.
- `\s` is modelled as ASCII whitespace (space, tab, newline, carriage return, vertical tab, form feed). Python also matches Unicode whitespace.
- The unused `template` parameter of `generate_pages` is dropped.
