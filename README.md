# Daily verifications table: layout model

This project models the table-rendering core of the `verifications_cron` script. The script runs a
saved query and turns its rows into a table image posted to a chat channel. The Dafny model covers:

- **Wrapping** (`TextWrap`): the nested `wrap` helper, i.e. `textwrap.wrap(..., break_long_words=False)`
  with its lines joined by line feeds. Text is cut into whitespace-separated tokens. The tokens are
  placed greedily, one space apart, on lines of at most `maxChars` characters. A longer token is
  never split and sits alone on its line. A width of 0 or less raises, as `textwrap` does.
- **Layout** (`TableLayout`): the parts of `render_table_image` that use only integers.
  - Column defaults: width 350, alignment "left".
  - The character budget `chars_for_width`.
  - The body loop (`BuildBody`, with its inner loop over the keys as `BuildRow`). It wraps the
    value under the key "name" with the budget of the *first* column's width, and passes every
    other value through `str`. It also counts the lines of each row.
  - Row heights `60 + (lines - 1) * 16`, canvas width `max(1000, Σ widths)` and canvas height
    `60 + Σ row heights`.
  - The width and height fractions, as exact rationals.
- **Styling** (`TableStyle`): the two styling loops. They build one style descriptor per cell
  instead of changing plotting-library cell objects.
  - Header cells get the header tint, bold text and the darker border.
  - Data row `i` (counted from 1) gets the stripe tint when `i` is even, and white otherwise.
  - A body cell's text is anchored left for "left", centred for "center", and right for
    anything else.
- **Report run** (`DailyReport`): the part of `main` between the fetch and the post.
  - Each raw row is padded with `''` to three fields. The first three fields become the
    "name", "status" and "date" entries, and extra fields are dropped.
  - The date goes through `format_date`.
  - When there are no rows the run stops before anything is rendered.
  - Otherwise the table is laid out with the three fixed columns: "Nombre" 1000 px left,
    "Estado" 350 px center, "Fecha" 450 px right.

## Behaviour worth noting

The model keeps these behaviours of the source:

- **Zero character budget.** A column narrower than 23 px gets a character budget of 0. Python's
  `textwrap` then raises `ValueError`, even for empty text. So `Wrap` fails, and
  `RenderTableLayout` fails when some row has a "name" cell.
- **Unknown alignment.** An alignment other than "left" or "center" renders as right.
- **Which column is wrapped.** The wrapped column is the one keyed "name", wherever it stands. Its
  budget always comes from the first column's width.
- **Missing columns.** An empty column list raises at `widths[0]`. It does so even when there are
  no rows.

## Model

| member | source | states |
|---|---|---|
| `Text.Tokens` | verifications_cron/verifications_cron.py:49 | the tokens textwrap places are non-empty and contain none of the six whitespace characters |
| `TextWrap.Wrap` | verifications_cron/verifications_cron.py:47-49 | raises (InvalidWidth) exactly when `max_chars <= 0`, whatever the text; `None` with a positive width gives "" |
| `TextWrap.Fill` | verifications_cron/verifications_cron.py:49 | the lines keep the tokens in order, each fits the width or is one token alone, and no line could have taken the next line's first token |
| `TextWrap.FillFrom` | verifications_cron/verifications_cron.py:49 | greedy filling from a partly built line keeps its tokens at the head of the first line and preserves the three layout properties |
| `TextWrap.GreedyLayoutUnique` | verifications_cron/verifications_cron.py:49 | two layouts of the same tokens with those three properties are equal, so the greedy layout is fully determined |
| `TextWrap.FillIsTheGreedyLayout` | verifications_cron/verifications_cron.py:49 | any layout with the three properties is the one `Fill` produces |
| `TextWrap.WrapPreservesTokens` | verifications_cron/verifications_cron.py:47-49 | the wrapped text has exactly the input's tokens, in their original order |
| `TextWrap.WrapIdempotent` | verifications_cron/verifications_cron.py:47-49 | wrapping wrapped text again, or its lines joined with spaces, gives the same text |
| `TextWrap.WrapBlank` | verifications_cron/verifications_cron.py:48-49 | empty or all-whitespace text wraps to "" |
| `TextWrap.WrapLinesBounded` | verifications_cron/verifications_cron.py:49 | no word is split: every line is at most `max_chars` long or is a single input token |
| `TextWrap.WrapShortTokensFit` | verifications_cron/verifications_cron.py:49 | when no token exceeds the width, every line fits |
| `TextWrap.WrapLineFeeds` | verifications_cron/verifications_cron.py:49 | the wrapped text holds one line feed fewer than it has lines (none for no line) |
| `TextWrap.SingleTokenUnchanged` | verifications_cron/verifications_cron.py:49 | a single token wraps to itself whatever its length |
| `TableLayout.CharsForWidth` | verifications_cron/verifications_cron.py:51-52 | the budget is 0 exactly when `px < 22.5`, and otherwise `n + 2` is the number of whole 7.5-pixel steps in `px` |
| `TableLayout.CharsForWidthFacts` | verifications_cron/verifications_cron.py:51-54 | the budget never decreases as the width grows, and is 131 for the 1000-pixel first column |
| `TableLayout.Str` | verifications_cron/verifications_cron.py:64 | a string value is itself and JSON null is "None", as Python's `str` gives them |
| `TableLayout.Lookup` | verifications_cron/verifications_cron.py:60 | a present key gives its value and a missing key gives "", as `row.get(key, "")` does |
| `TableLayout.Aligns` | verifications_cron/verifications_cron.py:44 | one alignment per column: its own when given, "left" otherwise; `IsLayoutOf` hands these to the body cells |
| `TableLayout.Widths` | verifications_cron/verifications_cron.py:45 | one width per column: its own when given, 350 px otherwise; `IsLayoutOf` takes the wrap budget from the first and the canvas width from all |
| `TableLayout.CellText` | verifications_cron/verifications_cron.py:60-65 | a cell raises exactly when its key is "name" and the budget is below 1 |
| `TableLayout.CellTextSpec` | verifications_cron/verifications_cron.py:59-65 | non-"name" values are their `str` unchanged, a missing key gives "", and the "name" value is wrapped with the given budget and keeps its tokens |
| `TableLayout.RowLineCount` | verifications_cron/verifications_cron.py:58-66 | a row has at least one line; `RowLineCountIsMax` shows it is the largest cell line count |
| `TableLayout.BuildRow` | verifications_cron/verifications_cron.py:58-66 | one cell per key in order, each equal to `CellText`, and the running maximum equals `RowLineCount`; raises exactly when "name" is a key and the budget is below 1 |
| `TableLayout.BuildBody` | verifications_cron/verifications_cron.py:55-68 | one body row and one line count per input row, in input order; raises exactly when there is a row, a "name" key and a budget below 1 |
| `TableLayout.RowLineCountIsMax` | verifications_cron/verifications_cron.py:58-66 | a row's line count is at least 1 and is the maximum over its cells of newline count + 1 |
| `TableLayout.NameCellLines` | verifications_cron/verifications_cron.py:62-66 | a wrapped "name" cell contributes exactly the number of wrapped lines (at least 1) |
| `TableLayout.BodyLineCountsPositive` | verifications_cron/verifications_cron.py:58-68 | every line count of a built body is at least 1 |
| `TableLayout.RowHeights` | verifications_cron/verifications_cron.py:74-80 | one height per line count, each `60 + (lc - 1) * 16` |
| `TableLayout.RowHeightsBounds` | verifications_cron/verifications_cron.py:74-80 | rows are at least 60 px tall, and one row is taller than another exactly when it has more lines |
| `TableLayout.CanvasHeight` | verifications_cron/verifications_cron.py:81 | with no rows the canvas is the 60 px header; each further row adds exactly its own height |
| `TableLayout.CanvasHeightFromLines` | verifications_cron/verifications_cron.py:74-81 | the canvas height is 60 px of header, 60 px per row and 16 px per wrapped line beyond each row's first |
| `TableLayout.CanvasWidth` | verifications_cron/verifications_cron.py:71 | the canvas width is at least 1000 and at least the sum of the widths, and equals one of them |
| `TableLayout.Fractions` | verifications_cron/verifications_cron.py:72 | one share per amount, each the amount divided by the total |
| `TableLayout.FractionsSum` | verifications_cron/verifications_cron.py:72 | the shares add up to the amounts' sum divided by the total |
| `TableLayout.ColumnFractionsBounded` | verifications_cron/verifications_cron.py:71-72 | with positive widths each column share lies in (0, 1], the shares sum to at most 1, and to exactly 1 once the widths reach 1000 px |
| `TableLayout.HeightFractionsSumToOne` | verifications_cron/verifications_cron.py:105-106 | the header share plus all row shares of the canvas height is exactly 1 |
| `TableLayout.RenderTableLayout` | verifications_cron/verifications_cron.py:41-129 | fails exactly on an empty column list or on a zero budget with rows and a "name" key; otherwise headers, body, heights, canvas size, fractions and cell styles are as above, with the budget taken from the first column |
| `TableStyle.HorizontalAlign` | verifications_cron/verifications_cron.py:123 | "left" maps to left, "center" to center, and any other value to right |
| `TableStyle.RowFace` | verifications_cron/verifications_cron.py:118 | data row `i` gets the stripe colour exactly when `i` is even, and white otherwise |
| `TableStyle.StyleCells` | verifications_cron/verifications_cron.py:108-129 | every header cell has the header tint, darker border, bold text and header height; every body cell has its row's face, the light border, its column's alignment and its row's height |
| `TableStyle.StripesAlternate` | verifications_cron/verifications_cron.py:117-118 | consecutive data rows never share a background, and rows two apart do |
| `DailyReport.FormatDate` | verifications_cron/verifications_cron.py:34-39 | a falsy field gives ""; otherwise the result fails exactly when the date collaborator rejects `str(field)`, and is its answer when it does not |
| `DailyReport.PadRow` | verifications_cron/verifications_cron.py:151-152 | a short row is padded to `n` fields with "" and keeps its own fields |
| `DailyReport.AdaptRow` | verifications_cron/verifications_cron.py:150-154 | only the date can make a row fail; `AdaptRowSpec` gives the keys and values of a row that succeeds |
| `DailyReport.AdaptRows` | verifications_cron/verifications_cron.py:149-155 | one adapted row per raw row, in order, or the first row's date error, which exists exactly when some row's date fails |
| `DailyReport.AdaptRowSpec` | verifications_cron/verifications_cron.py:150-154 | an adapted row has exactly the keys name, status and date; name and status are the first two fields or ""; fields past the third play no part |
| `DailyReport.RunReport` | verifications_cron/verifications_cron.py:149-170 | zero rows end the run with nothing rendered; a date error ends it with the error of the first row whose date fails; otherwise the rendered layout covers exactly the adapted rows under the report columns, and the row count is the number of raw rows |
| `DailyReport.ReportColumns` | verifications_cron/verifications_cron.py:160-168 | three columns titled "Nombre", "Estado" and "Fecha" over the keys name, status and date, each with its own width and alignment; `ReportColumnsFacts` gives the values |
| `DailyReport.ReportColumnsFacts` | verifications_cron/verifications_cron.py:160-168 | the report columns have widths 1000/350/450, the 131-character name budget, an 1800-pixel canvas and column shares summing to 1 |
| `DailyReport.AnaWraps` | verifications_cron/verifications_cron.py:54-62 | the name "Ana" under the 131-character budget stays "Ana", on one line |

## Left out

- Environment lookups and the exit on a missing variable (`need`): process I/O.
- The HTTP session with retries, the query POST and the JSON extraction. The raw rows are a
  parameter of `RunReport`.
- The chat webhook post and its caption. `RunReport` returns the row count and the layout that
  would be posted.
- FormatDate: stripping, ISO-8601 parsing and `strftime` are a parameter (`isoFormat`). Only the
  falsy-value shortcut is modelled.
- Floating point: `px / 7.5`, the width and height fractions and the figure size in inches
  (pixels / 200 dpi). The model uses exact rationals.
- All plotting-library work: figure and table construction, font size, text rotation, the wrap
  flag, the white outline effect, the header cells' default text alignment, and PNG encoding. The
  model stops at the layout and the cell style descriptors.
- `RenderTableLayout` with no rows: the plotting library raises when it reads the first row of
  the cell text. The model returns a layout with an empty body. `RunReport` never renders zero rows.
- Finer textwrap behaviour:
  - splitting at hyphens;
  - tab expansion;
  - runs of whitespace inside a line, and leading whitespace on the first line (both kept by
    textwrap, dropped here);
  - chunks made only of other Unicode whitespace, such as U+00A0. The model treats these as
    ordinary token characters. textwrap drops such a chunk when it ends a line, so
    `wrap("a \u00a0", 10)` gives "a " there and "a \u00a0" here.
  Lines are tokens joined by single spaces.
- Raw values other than strings and JSON null (numbers, booleans), whose `str` form is not
  modelled.
- Columns missing `title` or `dataIndex` (a `KeyError` in the source). The column type always
  has both.
