# pycard render pipeline, modelled in Dafny

pycard renders a deck of game cards. Each row of a CSV file is rendered
through a single-card jinja2 template. The rendered cards are grouped into
columns of four, and the columns are rendered through a page template into
`index.html` in the asset directory. A watchdog handler re-renders the page
on every file-system event under the asset directory, except an event on
`index.html` itself. Without that exception the page's own write would
trigger the next render, forever.

The model has three modules:

- `Grouping` (`grouping.dfy`): the `grouper` helper. It is `zip_longest` over
  `n` references to one shared iterator, modelled as a recursive function on
  sequences. The lemmas give the number of groups, the length of each group,
  where every item lands, and where the padding goes. `Ungroup`, which
  drops the padding again, is a specification-side inverse with no
  counterpart in the program; `UngroupGrouper` proves the round trip.
- `Paths` (`paths.dfy`): `os.path.join` with POSIX rules for two components,
  and the four paths `CardRenderer.__init__` derives. A lemma shows that no
  input file can be the rendered page.
- `PyCard` (`pycard.dfy`): `CardRenderer` as a class with constant path
  fields and a trace of the files it writes. `render_cards` is a method with
  the row loop. `RenderingEventHandler.on_any_event` is a method with the
  self-trigger filter. `Startup` is the part of `main` that builds these
  objects and does the first render.

Foreign code and I/O become parameters:

- A compiled template is a function value: `CardTemplate` renders a row,
  `PageTemplate` renders the grouped cards.
- What `render_cards` reads from disk at the moment it runs (the CSV rows
  and the two templates) is an `Assets` value passed to the call.
- The one file it writes is recorded as a `FileWrite` appended to
  `CardRenderer.writes`.
- `os.path.dirname(__file__)` is the constructor parameter `moduleDir`.

Path comparison in the event filter is plain string equality, as in the
source. An event that names the page by a different spelling of the same
path would not be filtered.

The cards in a column are `Option<string>` values. `None` stands for
Python's `None`, the fill value `grouper` pads the last column with.

`render_cards` renders exactly one card per CSV row. `pycard.py` has no
per-row filtering or duplication of cards.

## Model

| member | source | states |
|---|---|---|
| `Grouping.Grouper` | pycard.py:18-20 | no groups for an empty input or a non-positive `n`; for `n > 0` the group count `g` satisfies `g*n - n < |xs| <= g*n`; every group, the last one too, holds exactly `n` items |
| `Grouping.GroupCount` | pycard.py:18-20 | for `n > 0` there are exactly ceil(|xs| / n) groups |
| `Grouping.FlattenGrouper` | pycard.py:18-20 | the groups laid end to end are `xs` followed by `PadCount(|xs|, n)` copies of the fill value, where `PadCount(|xs|, n)` is `(n - |xs| mod n) mod n`, fewer than `n` |
| `Grouping.UngroupGrouper` | pycard.py:18-20 | round trip: dropping the padding from the concatenated groups gives back the input |
| `Grouping.GrouperAt` | pycard.py:18-20 | position `j` of group `k` holds item `k*n + j` of the input, or the fill value once the input is used up |
| `Grouping.GrouperIndex` | pycard.py:18-20 | input order is kept: item `i` is in group `i / n`, at position `i mod n` |
| `Grouping.GroupBeforeLast` | pycard.py:18-20 | every group before the last is the slice `xs[k*n .. k*n+n]`, so it holds no padding |
| `Grouping.LastGroup` | pycard.py:18-20 | the last group is the rest of the input followed by the gap of fill values up to `g*n` |
| `Grouping.PaddingOnlyInLastGroup` | pycard.py:18-20 | padding appears only at the end of the last group, and there are `PadCount(|xs|, n)` fill values there |
| `Paths.Join` | pycard.py:25-28 | `os.path.join(dir, name)`: an absolute `name` is returned as it is; otherwise the result lies inside `dir` (it starts with `dir` and a separator stands at the boundary) and is `dir + name` or `dir + "/" + name`, with no separator added when `dir` is empty or already ends in one; the result always ends with `name` |
| `Paths.SingleCardTemplatePath` | pycard.py:25 | for a relative prefix the card template is the file `prefix + ".html.jinja2"` directly in the asset directory: the directory followed by that name, with or without an added `/`, and inside the directory; for an absolute prefix it is the prefix with that extension |
| `Paths.CsvCardPath` | pycard.py:26 | for a relative prefix the data file is `prefix + ".csv"` directly in the asset directory: the directory followed by that name, with or without an added `/`, and inside the directory; for an absolute prefix it is the prefix with that extension |
| `Paths.CardsTemplatePath` | pycard.py:27 | the page template path is the program's directory joined with `cards.html.jinja2` (with or without an added `/`) and lies inside that directory |
| `Paths.AllCardsRenderedPath` | pycard.py:28 | the output path is the asset directory followed by `index.html` (the constant at pycard.py:15), with or without an added `/`, and lies inside the asset directory |
| `Paths.InputsAreNotThePage` | pycard.py:24-28 | for every directory and prefix, the CSV file, the card template and the page template are all different from the output page |
| `PyCard.RenderedCards` | pycard.py:34-42 | exactly one rendered card per CSV row, in row order: card `i` is the template applied to row `i` |
| `PyCard.Columns` | pycard.py:45 | `grouper(rendered_cards, 4)`: columns of exactly four cells, just enough of them to hold every card (`4*|columns| - 4 < |cards| <= 4*|columns|`) |
| `PyCard.CardsGrouped` | pycard.py:41-45 | `cards_grouped`: ceil(|rows| / 4) columns of four cells; the rendered row `i` is at column `i / 4`, row `i mod 4`; a cell is `None` exactly when it lies past the last row |
| `PyCard.ColumnsOfCards` | pycard.py:44-45 | `grouper(cards, 4)` gives ceil(|cards| / 4) columns of four cells; card `i` is at column `i / 4`, row `i mod 4`; a cell is `None` exactly when it lies past the last card |
| `PyCard.CardRenderer.constructor` | pycard.py:24-28 | the four path fields are the ones derived from the asset directory, the prefix and the program directory; nothing is written yet |
| `PyCard.CardRenderer.RenderCards` | pycard.py:30-52 | a render appends exactly one write, to the output path, whose contents are the page template applied to `CardsGrouped` of what is on disk; the renderer keeps writing only to the page |
| `PyCard.RenderingEventHandler.constructor` | pycard.py:56-57 | the handler keeps the renderer it is given |
| `PyCard.RenderingEventHandler.OnAnyEvent` | pycard.py:59-63 | an event on the output page writes nothing; any other event renders exactly once; an event naming the path of an earlier write of the renderer writes nothing; an event on the CSV file or the card template always renders |
| `PyCard.Startup` | pycard.py:112-119 | start-up builds a renderer for the asset directory and prefix and a handler over it, then renders once; in this sequential model exactly one page write exists afterwards |

## Left out

- Template construction and rendering by jinja2: a foreign library. Templates are function values here, and the model says nothing about what they produce.
- Parsing by `csv.DictReader` and the global `custom_delimiter` dialect registration: library parsing and process-wide state. The rows arrive as a sequence of maps from column name to cell text. Missing cells (`None`) and surplus cells are not modelled.
- Opening, reading and writing files: I/O. Reads become the `Assets` parameter. A write becomes an entry in `CardRenderer.writes`. A missing or unreadable file raises an exception in the source; that failure is not modelled.
- The `LoggingEventHandler`, and the scheduling, start, stop and join of the watchdog `Observer`: file-system watching on other threads. Events reach the handler one call at a time here.
- The livereload `Server` and its watch and serve calls: HTTP serving.
- `parse_options`, `OptionParser` and the logging setup: command-line plumbing. `Startup` takes their results as parameters.
- `os.path.join` on Windows: only the POSIX rules are modelled.
- The laziness of `zip_longest` and `DictReader`: they are iterators in the source and sequences here. In the source a second pass over `cards_grouped` yields nothing; the model lets the page template read the columns any number of times, so it assumes the page template (`cards.html.jinja2`, which is not part of this model) reads them once.
- Template errors: `Template(...)` and `render` can raise in the source, and templates are total functions here. The page file is opened with `"w"`, which truncates it, before the page template renders, so an error while the page template renders leaves an empty `index.html` (a syntax error in the page template is raised by `Template(...)` before the file is opened and leaves the old page); the model always records one complete write.
- OnAnyEvent: the filter compares only the event's path with the page path. An event that a page write causes under another path, such as the asset directory's own modified event when `index.html` is created, is not filtered and renders again; the model promises only that events naming the path of an earlier write are ignored.
- Startup: the source starts the watchdog observer before the first render, so the handler can render on the watchdog thread during or right after that render. The model runs the first render with no event in between and does not model that overlap.
