/** The render pipeline of pycard.py: a card renderer that renders every CSV
    row through the card template, groups the cards into columns of four and
    writes the page; and the file-system event handler that re-renders on
    every change except the page's own write. */
module PyCard {
  import opened Grouping
  import opened Paths

  datatype Option<T> = None | Some(value: T)

  /** A CSV row as `csv.DictReader` yields it: column name to cell text. */
  type Row = map<string, string>

  /** A compiled single-card template: renders one row to HTML. */
  type CardTemplate = Row -> string

  /** One column of the page: four cards, `None` where the deck ran out. */
  type Column = seq<Option<string>>

  /** The compiled page template, given the grouped cards. */
  type PageTemplate = seq<Column> -> string

  /** The column height `render_cards` groups the cards by. */
  const CardsPerColumn: nat := 4

  /** What `render_cards` reads from disk when it runs: the rows of the CSV
      file and the two compiled templates. */
  datatype Assets = Assets(csvRows: seq<Row>, cardTemplate: CardTemplate, cardsTemplate: PageTemplate)

  /** One write of a whole file. */
  datatype FileWrite = FileWrite(path: string, contents: string)

  /** A watchdog file-system event; only its source path is looked at. */
  datatype FileSystemEvent = FileSystemEvent(srcPath: string)

  /** The cards, one per row and in row order. */
  function RenderedCards(rows: seq<Row>, template: CardTemplate): (cards: seq<string>)
    ensures |cards| == |rows|
    ensures forall i :: 0 <= i < |rows| ==> cards[i] == template(rows[i])
  {
    if rows == [] then [] else [template(rows[0])] + RenderedCards(rows[1..], template)
  }

  /** The cards as page cells, every one present. */
  function Present(cards: seq<string>): (cells: seq<Option<string>>)
    ensures |cells| == |cards|
    ensures forall i :: 0 <= i < |cards| ==> cells[i] == Some(cards[i])
  {
    if cards == [] then [] else [Some(cards[0])] + Present(cards[1..])
  }

  /** `grouper(rendered_cards, 4)`: columns of four, padded with `None`. */
  function Columns(cards: seq<string>): (columns: seq<Column>)
    ensures |columns| * 4 - 4 < |cards| <= |columns| * 4
    ensures forall k :: 0 <= k < |columns| ==> |columns[k]| == 4
  {
    Grouper(Present(cards), CardsPerColumn, None)
  }

  /** `grouper(cards, 4)` gives ceil(|cards| / 4) columns of exactly four
      cells; card `i` sits in column `i / 4` at row `i % 4`; and a cell is
      `None` exactly when it lies past the last card. */
  lemma ColumnsOfCards(cards: seq<string>)
    ensures |Columns(cards)| == (|cards| + 3) / 4
    ensures forall k :: 0 <= k < |Columns(cards)| ==> |Columns(cards)[k]| == 4
    ensures forall i :: 0 <= i < |cards| ==>
      i / 4 < |Columns(cards)| && Columns(cards)[i / 4][i % 4] == Some(cards[i])
    ensures forall k, j :: 0 <= k < |Columns(cards)| && 0 <= j < 4 ==>
      (Columns(cards)[k][j] == None <==> 4 * k + j >= |cards|)
  {
    var cells := Present(cards);
    GroupCount(cells, CardsPerColumn, None);
    forall i | 0 <= i < |cards|
      ensures i / 4 < |Columns(cards)| && Columns(cards)[i / 4][i % 4] == Some(cards[i])
    {
      GrouperIndex(cells, CardsPerColumn, None, i);
    }
    forall k, j | 0 <= k < |Columns(cards)| && 0 <= j < 4
      ensures Columns(cards)[k][j] == None <==> 4 * k + j >= |cards|
    {
      GrouperAt(cells, CardsPerColumn, None, k, j);
    }
  }

  /** `cards_grouped`, the value the page template receives: row `i` of the
      CSV file, rendered, sits in column `i / 4` at row `i % 4`; every later
      cell is `None`. */
  function CardsGrouped(assets: Assets): (grouped: seq<Column>)
    ensures var rows := assets.csvRows;
      && |grouped| == (|rows| + 3) / 4
      && (forall k :: 0 <= k < |grouped| ==> |grouped[k]| == 4)
      && (forall i :: 0 <= i < |rows| ==>
            i / 4 < |grouped| && grouped[i / 4][i % 4] == Some(assets.cardTemplate(rows[i])))
      && (forall k, j :: 0 <= k < |grouped| && 0 <= j < 4 ==>
            (grouped[k][j] == None <==> 4 * k + j >= |rows|))
  {
    var cards := RenderedCards(assets.csvRows, assets.cardTemplate);
    ColumnsOfCards(cards);
    Columns(cards)
  }

  /** Renders a deck: the paths are fixed when the renderer is made; every
      call of `RenderCards` writes the page once. */
  class CardRenderer {
    const singleCardTemplatePath: string
    const csvCardPath: string
    const cardsTemplatePath: string
    const allCardsRenderedPath: string

    /** The file writes made so far, oldest first. */
    var writes: seq<FileWrite>

    /** The renderer writes nothing but the page, and no input file is the
        page. */
    ghost predicate Valid()
      reads this
    {
      && csvCardPath != allCardsRenderedPath
      && singleCardTemplatePath != allCardsRenderedPath
      && cardsTemplatePath != allCardsRenderedPath
      && forall w :: w in writes ==> w.path == allCardsRenderedPath
    }

    /** `moduleDir` is the directory of the program, `os.path.dirname(__file__)`. */
    constructor (inputPath: string, prefix: string, moduleDir: string)
      ensures singleCardTemplatePath == SingleCardTemplatePath(inputPath, prefix)
      ensures csvCardPath == CsvCardPath(inputPath, prefix)
      ensures cardsTemplatePath == CardsTemplatePath(moduleDir)
      ensures allCardsRenderedPath == AllCardsRenderedPath(inputPath)
      ensures writes == []
      ensures Valid()
    {
      singleCardTemplatePath := SingleCardTemplatePath(inputPath, prefix);
      csvCardPath := CsvCardPath(inputPath, prefix);
      cardsTemplatePath := CardsTemplatePath(moduleDir);
      allCardsRenderedPath := AllCardsRenderedPath(inputPath);
      writes := [];
      InputsAreNotThePage(inputPath, prefix, moduleDir);
    }

    /** Renders every row in order, groups the cards into columns of four
        and writes the page, once, to the output path. */
    method RenderCards(assets: Assets)
      requires Valid()
      modifies this
      ensures Valid()
      ensures writes == old(writes) + [FileWrite(allCardsRenderedPath, assets.cardsTemplate(CardsGrouped(assets)))]
    {
      var cardsData := assets.csvRows;
      var template := assets.cardTemplate;
      var renderedCards: seq<string> := [];
      for i := 0 to |cardsData|
        invariant |renderedCards| == i
        invariant forall k :: 0 <= k < i ==> renderedCards[k] == template(cardsData[k])
      {
        renderedCards := renderedCards + [template(cardsData[i])];
      }
      assert renderedCards == RenderedCards(cardsData, template);
      var cardsGrouped := Grouper(Present(renderedCards), CardsPerColumn, None);
      writes := writes + [FileWrite(allCardsRenderedPath, assets.cardsTemplate(cardsGrouped))];
    }
  }

  /** Re-renders the deck on file-system events. */
  class RenderingEventHandler {
    const cardRenderer: CardRenderer

    constructor (cardRenderer: CardRenderer)
      ensures this.cardRenderer == cardRenderer
    {
      this.cardRenderer := cardRenderer;
    }

    /** An event on the page itself is ignored; any other event renders the
        deck exactly once, from what is on disk at that moment (`assets`). */
    method OnAnyEvent(event: FileSystemEvent, assets: Assets)
      requires cardRenderer.Valid()
      modifies cardRenderer
      ensures cardRenderer.Valid()
      ensures event.srcPath == cardRenderer.allCardsRenderedPath ==>
        cardRenderer.writes == old(cardRenderer.writes)
      ensures event.srcPath != cardRenderer.allCardsRenderedPath ==>
        cardRenderer.writes == old(cardRenderer.writes) + [FileWrite(cardRenderer.allCardsRenderedPath, assets.cardsTemplate(CardsGrouped(assets)))]
      ensures (exists w :: w in old(cardRenderer.writes) && w.path == event.srcPath) ==>
        cardRenderer.writes == old(cardRenderer.writes)
      ensures event.srcPath in {cardRenderer.csvCardPath, cardRenderer.singleCardTemplatePath} ==>
        |cardRenderer.writes| == |old(cardRenderer.writes)| + 1
    {
      if event.srcPath == cardRenderer.allCardsRenderedPath {
        return;
      }
      cardRenderer.RenderCards(assets);
    }
  }

  /** The start-up of the program: a renderer for the asset directory and
      prefix, the handler watching over it, and a first render. */
  method Startup(assetsPath: string, filePrefix: string, moduleDir: string, assets: Assets)
    returns (cardRenderer: CardRenderer, handler: RenderingEventHandler)
    ensures fresh(cardRenderer) && fresh(handler)
    ensures handler.cardRenderer == cardRenderer && cardRenderer.Valid()
    ensures cardRenderer.csvCardPath == CsvCardPath(assetsPath, filePrefix)
    ensures cardRenderer.singleCardTemplatePath == SingleCardTemplatePath(assetsPath, filePrefix)
    ensures cardRenderer.cardsTemplatePath == CardsTemplatePath(moduleDir)
    ensures cardRenderer.writes == [FileWrite(Join(assetsPath, RenderedCardsFile), assets.cardsTemplate(CardsGrouped(assets)))]
  {
    cardRenderer := new CardRenderer(assetsPath, filePrefix, moduleDir);
    handler := new RenderingEventHandler(cardRenderer);
    cardRenderer.RenderCards(assets);
  }
}
