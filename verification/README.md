# Promptlytics: the deterministic core of `app.py`

Promptlytics is a Streamlit app. A user uploads a CSV file, asks a question
about it in plain words, gets an answer from a hosted language model and sees a
bar chart picked from the question's wording. Four small computations sit
inside that script. They are modelled here and their properties are proved:

- **Row cap** (`tables.dfy`). A freshly loaded table keeps at most its first
  20,000 rows. When rows are dropped, a warning carries the file's row count.
  `CapRows` is a method because the script rebinds `df`.
- **Suggested questions** (`suggestions.dfy`). Two nested loops append three
  template strings for each visited pair of columns. The result is then
  de-duplicated through a `set` and cut to five entries. Python's set order is
  unspecified, so `Suggest` picks any element of the remaining pool (`:|`) and
  is proved correct for every such choice.
- **Response cleaner** (`cleaner.dfy`). `clean_response` deletes fenced code
  blocks, strips and splits the text into lines, and keeps the lines holding a
  comma or a tab. When two or more such lines exist, it hands them to a CSV
  parser. Otherwise, or when parsing fails, it returns the stripped text. The
  label is always the same. The parser is a parameter `readCsv` that either
  gives a frame or fails.
- **Chart column selection** (`chart.dfy`). The columns mentioned in the
  question are found by case-insensitive substring match, in table order. A
  priority chain then picks the `x` and `y` axes, or gives up with the "could
  not determine" warning.

Supporting modules: `wrappers.dfy` (`Option`), `seqs.dfy` (list comprehensions
with a filter, `head(n)`), and `strings.dfy` (Python's `in`, `lower`, `strip`,
`split` and `join` on `str`).

Two consequences of the code are worth spelling out, and lemmas pin both down:

- The second template puts the later column first (app.py:52). So for columns
  `[City, Sales]` the suggestion is "Top 5 Sales by City", and "Top 5 City by
  Sales" never appears (`Suggestions.CitySalesExample`).
- `mentioned_cols` is built in the table's column order (app.py:133), not in the
  order the question names the columns. So when two or more columns are
  mentioned, `y` is the one that comes first in the TABLE. For the table
  `[Region, Revenue, Date]` and the question "Revenue by Region", `y` is Region
  and `x` is Revenue (`Chart.RegionRevenueExample`).

## Model

| member | source | states |
|---|---|---|
| Tables.CapRows | app.py:33-36 | The capped table has the same columns and min(R, 20000) rows, and those rows are the first rows of the file in order. A table within the cap is returned unchanged. A warning is produced exactly when R > 20000, and it carries R and 20000. |
| Seqs.Head | app.py:36 | `head(n)` keeps min(n, length) elements, each equal to the element at the same position of the input. |
| Tables.Names | app.py:47 | `df.columns.tolist()` has one name per column, in column order. |
| Suggestions.CandidateQuestions | app.py:46-54 | Loop invariant: the list holds exactly the template strings of the pairs visited so far. At the end, a string is in the list iff it is a template for some i < min(3, C) and i < j < min(i+4, C). With fewer than two columns the list is empty. |
| Suggestions.Templates | app.py:50-53 | The three f-strings for a pair. They are always pairwise different, so each visited pair adds three distinct candidates. |
| Suggestions.Suggest | app.py:55-57 | At most 5 suggestions and no duplicates. Every suggestion is a generated template, so it names only columns of the table. A generated question is left out only when 5 were already picked. The list is empty (no buttons shown) iff the table has fewer than two columns. |
| Suggestions.NothingGeneratedBelowTwo | app.py:48-49 | With fewer than two columns the inner range is empty, so no question is generated. |
| Suggestions.CitySalesExample | app.py:50-53 | For `[City, Sales]`, "Top 5 Sales by City" is generated and "Top 5 City by Sales" is not. |
| Cleaner.FindFence | app.py:105 | The lazy `(.*?)` stops at the first fence at or after the start position: the fence found is there and none comes earlier. `None` means there is no fence from that position on. |
| Cleaner.RemoveFencedBlocks | app.py:105 | Removing fenced blocks never makes the text longer. |
| Cleaner.NoFenceUnchanged | app.py:105 | Text with no triple-backtick sequence passes through fence removal unchanged. |
| Cleaner.LeadingBlockRemoved | app.py:105 | A fenced block at the start of the text is deleted with its body, whether or not the body starts with `python`. |
| Cleaner.FencedBlockRemoved | app.py:105 | A fenced block is deleted with its body. The fence-free text before it is kept. Removal goes on in the text after it. |
| Cleaner.LeadingUnclosedFenceKept | app.py:105 | An opening fence at the start with no fence after it matches nothing, so the text is kept whole. |
| Cleaner.UnclosedFenceKept | app.py:105 | An unclosed fence after fence-free text matches nothing: the text before it, the fence and everything after it are kept. |
| Strings.TrimStart | app.py:106 | `lstrip` drops exactly a leading run of Python whitespace. The result is a suffix of the input and does not start with whitespace. |
| Strings.TrimEnd | app.py:106 | `rstrip` drops exactly a trailing run of Python whitespace. The result is a prefix of the input and does not end with whitespace. |
| Strings.Strip | app.py:106 | The stripped text is a slice of the input, everything before and after that slice is whitespace, and the slice neither starts nor ends with whitespace. So exactly the leading and trailing runs of whitespace are removed. |
| Strings.Split | app.py:106 | `split('\n')` gives at least one piece, no piece holds the separator, and joining the pieces with the separator gives the input back. |
| Strings.Join | app.py:110 | `'\n'.join` starts with the first line and holds the separator once there are two lines. |
| Strings.SplitJoin | app.py:106-110 | Splitting undoes joining when no piece holds the separator. |
| Cleaner.ReplyLines | app.py:105-106 | The lines have no newline, there is at least one, and joined they give the stripped, fence-free reply. |
| Seqs.Filter | app.py:107 | The comprehension keeps exactly the elements that satisfy the condition and never gets longer. |
| Seqs.FilterConcat | app.py:107 | Filtering a concatenation equals concatenating the filtered parts, so kept elements stay in their original order. |
| Cleaner.IsTableLine | app.py:107 | A line is a table line iff some character of it is a comma or a tab. |
| Cleaner.TableLines | app.py:107 | A line is a table line iff it is a line of the stripped, fence-free reply and holds `,` or `\t`. |
| Cleaner.TableLinesKeepOrder | app.py:107 | Splitting the reply lines anywhere splits the table lines at the same point, so the table lines keep the reply's order. |
| Cleaner.CleanResponse | app.py:104-114 | The label is always "📝 Response (Cleaned):". A parsed frame needs at least two table lines. The plain result is the stripped, fence-free text. |
| Cleaner.FewTableLinesNeverParse | app.py:108-114 | With fewer than two table lines the parser is never consulted: any two parsers give the same result, and it is the stripped text. |
| Cleaner.ParsedExactly | app.py:108-113 | The result is a frame iff there are at least two table lines and parsing their newline-joined text succeeds. The frame is then what the parser returned. |
| Cleaner.ParserReceivesTableLines | app.py:110 | The text given to the parser splits back into exactly the table lines, unchanged and in order. |
| Cleaner.FenceFreeReply | app.py:105-114 | For a reply with no fence, the table lines come straight from the stripped reply, and the plain result is the stripped reply. |
| Cleaner.FencedBlockDropped | app.py:105-114 | A fenced block and its body never reach the plain-text result. |
| Strings.Lower | app.py:133 | `lower()` keeps the length, maps each character through the letter case map, and leaves no upper-case letter. |
| Strings.SubstringIff | app.py:133 | Python's `in` on strings holds iff some slice of the haystack equals the needle. |
| Strings.IsSubstring | app.py:133 | Python's `in` on strings: a prefix always occurs, and a needle longer than the haystack never does. |
| Strings.FirstCharMissing | app.py:133 | A needle whose first character is absent from the haystack is not in it. |
| Chart.MentionedColumns | app.py:133 | A name is mentioned iff it is a column name and its lower-cased form occurs in the lower-cased question. |
| Chart.IsMentioned | app.py:133 | A name is mentioned iff its lower-cased form occurs at some position of the lower-cased question. |
| Chart.MentionedWhenOccurs | app.py:133 | A name whose lower-cased form occurs at some position of the lower-cased question is mentioned. |
| Chart.NotMentionedWhenFirstCharMissing | app.py:133 | A name whose lower-cased first letter is absent from the lower-cased question is not mentioned. |
| Chart.SingleMention | app.py:133 | When only column i is mentioned, the mentioned list is exactly its name. |
| Chart.NumericNamesAreNames | app.py:134 | Every numeric column name is a column name. |
| Chart.NumericColumns | app.py:134 | `numeric_cols` is no longer than the column list, holds the name of every numeric column, and holds nothing but names of numeric columns. |
| Chart.OnlyNumericNames | app.py:134 | Every name the numeric filter keeps belongs to a column flagged numeric. |
| Chart.NumericNamesDistinct | app.py:134 | Distinct column names stay distinct in the numeric list. |
| Chart.SelectAxes | app.py:136-144 | Any chosen `x` and `y` are column names. When nothing is mentioned, both are numeric columns. |
| Chart.TwoMentionedColumns | app.py:137-138 | When columns i < j are the first two mentioned in table order, y = column i and x = column j, whatever order the question names them in. |
| Chart.OneNumericMention | app.py:139-142 | When exactly one column is mentioned and it is numeric, y is that column. x is the first column with a different name, or y itself when every column has y's name. |
| Chart.OtherColumns | app.py:141 | `other_cols` holds exactly the column names different from `y`. |
| Chart.OneNonNumericMention | app.py:139-144 | A single mentioned column that is not numeric is ignored: the choice falls through to the numeric rule. |
| Chart.FirstTwoNumeric | app.py:143-144 | When columns i < j are the first two numeric ones, they head the numeric list in that order. |
| Chart.NoMentionFirstTwoNumeric | app.py:143-144 | When nothing is mentioned and columns i < j are the first two numeric ones, x = column i and y = column j. |
| Chart.NoAxesExactly | app.py:136-146 | No pair is chosen iff fewer than two columns are mentioned, no mentioned column is numeric, and fewer than two columns are numeric. |
| Chart.AxesDistinct | app.py:136-144 | When column names are distinct and there are at least two columns, the chosen x and y differ. |
| Chart.PlanChart | app.py:146-158 | A bar chart is planned iff a pair was chosen and neither name is empty (Python truthiness). Its axes are the chosen pair and its title is "{y} by {x} (Top 10)". Otherwise the "could not determine" warning is shown. |
| Chart.ChartTitle | app.py:151 | The title is `y`, then " by ", then `x`, then " (Top 10)", each at its position. |
| Chart.TitleOfChosenAxes | app.py:146-151 | Non-empty chosen names always give a bar chart with those axes and the title built from them. |
| Chart.PlottedRows | app.py:148 | The plotted frame has at most 10 rows and no more than the sorted frame. It is the first 10 rows, or all of them when there are fewer. |
| Chart.RegionRevenueExample | app.py:133-138 | For `[Region, Revenue, Date]` and "Revenue by Region", x = Revenue and y = Region. |
| Chart.RegionRevenueMentions | app.py:133 | "Revenue by Region" mentions Region and Revenue but not Date. |
| Chart.RegionRevenueTitle | app.py:146-151 | That chart is titled "Region by Revenue (Top 10)". |
| Chart.SalesProfitExample | app.py:143-144 | For all-numeric `[Sales, Profit, Year]` and a question naming none of them, x = Sales and y = Profit. |
| Chart.SalesProfitMentions | app.py:133 | "How did it go?" mentions none of Sales, Profit and Year. |

## Left out

- The Streamlit UI and session state (upload widget, buttons, text input, rendering of text and frames): this is presentation.
- Reading the uploaded CSV and the CSV parse inside `clean_response`: `pd.read_csv` is a foreign library. The cleaner takes the parse as a parameter that either gives a frame or fails.
- Loading the API key and the HTTP call to the chat-completion service, including status handling and JSON extraction: this is network I/O. The model's reply is an input string.
- Sampling 20 rows and building the prompt: this is library randomness and text templating with no logic of its own.
- dtype inference with `select_dtypes`: each column carries a `numeric` flag as an input.
- Sorting by `y` and the seaborn/matplotlib drawing: this is library sorting and floating-point plotting. Only the cut to the first 10 rows of the sorted frame is modelled (`Chart.PlottedRows`).
- The concrete iteration order of Python's `set`: it is implementation-defined. `Suggestions.Suggest` holds for every choice order.
- Strings.Lower: maps only the ASCII letters A-Z. Python's `str.lower` also folds other scripts, and that mapping is not modelled.
- Column names that are not strings, for which `.lower()` raises outside any `try`: column names are modelled as strings.
- Exceptions raised while drawing the chart and the warning shown for them: these come from the plotting library.
- Cleaner.RemoveFencedBlocks: its own contract bounds only the length. What it removes and keeps is stated by `Cleaner.NoFenceUnchanged`, `Cleaner.FencedBlockRemoved` (a closed block) and `Cleaner.UnclosedFenceKept` (an unclosed fence). These lemmas cover text where no fence straddles the boundary between the pieces they name.
