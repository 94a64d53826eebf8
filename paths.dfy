/** File names as pycard.py builds them: `os.path.join` of two components
    with POSIX rules, and the four paths a card renderer derives from the
    asset directory and the file-name prefix. */
module Paths {

  const Sep: char := '/'

  /** The page every render writes, inside the asset directory. */
  const RenderedCardsFile: string := "index.html"

  /** The outer template that lays out all cards, next to the program. */
  const CardsTemplateFile: string := "cards.html.jinja2"

  predicate IsAbsolute(p: string)
  {
    |p| > 0 && p[0] == Sep
  }

  predicate EndsWith(p: string, suffix: string)
  {
    |suffix| <= |p| && p[|p| - |suffix|..] == suffix
  }

  predicate StartsWith(p: string, prefix: string)
  {
    |prefix| <= |p| && p[..|prefix|] == prefix
  }

  /** `p` names something inside directory `dir`: `p` starts with `dir`, and
      a separator stands at the boundary (at the end of `dir` or just after
      it), unless `dir` is empty, which is the current directory. */
  predicate InDirectory(p: string, dir: string)
  {
    && StartsWith(p, dir)
    && (dir == [] || dir[|dir| - 1] == Sep || (|p| > |dir| && p[|dir|] == Sep))
  }

  /** `posixpath.join(dir, name)`: an absolute `name` replaces `dir`; an
      empty `dir`, or one that already ends in a separator, is followed
      directly by `name`; otherwise one separator goes between them. */
  function Join(dir: string, name: string): (path: string)
    ensures EndsWith(path, name)
    ensures !IsAbsolute(name) ==> InDirectory(path, dir)
    ensures !IsAbsolute(name) ==> path == dir + name || path == dir + [Sep] + name
    ensures !IsAbsolute(name) && (dir == [] || dir[|dir| - 1] == Sep) ==> path == dir + name
    ensures IsAbsolute(name) ==> path == name
    ensures |path| <= |dir| + 1 + |name|
  {
    if IsAbsolute(name) then name
    else if dir == [] || dir[|dir| - 1] == Sep then dir + name
    else dir + [Sep] + name
  }

  /** The single-card template: `<prefix>.html.jinja2` directly in the asset
      directory, or the prefix path itself with that extension when the prefix
      is absolute. */
  function SingleCardTemplatePath(inputPath: string, prefix: string): (p: string)
    ensures EndsWith(p, prefix + ".html.jinja2")
    ensures !IsAbsolute(prefix) ==> InDirectory(p, inputPath)
    ensures !IsAbsolute(prefix) ==>
      p == inputPath + prefix + ".html.jinja2" || p == inputPath + [Sep] + prefix + ".html.jinja2"
    ensures IsAbsolute(prefix) ==> p == prefix + ".html.jinja2"
  {
    Join(inputPath, prefix + ".html.jinja2")
  }

  /** The card data: `<prefix>.csv` directly in the asset directory, or the
      prefix path itself with that extension when the prefix is absolute. */
  function CsvCardPath(inputPath: string, prefix: string): (p: string)
    ensures EndsWith(p, prefix + ".csv")
    ensures !IsAbsolute(prefix) ==> InDirectory(p, inputPath)
    ensures !IsAbsolute(prefix) ==>
      p == inputPath + prefix + ".csv" || p == inputPath + [Sep] + prefix + ".csv"
    ensures IsAbsolute(prefix) ==> p == prefix + ".csv"
  {
    Join(inputPath, prefix + ".csv")
  }

  /** The page template, in the directory the program itself lives in. */
  function CardsTemplatePath(moduleDir: string): (p: string)
    ensures EndsWith(p, CardsTemplateFile)
    ensures InDirectory(p, moduleDir)
    ensures p == moduleDir + CardsTemplateFile || p == moduleDir + [Sep] + CardsTemplateFile
  {
    Join(moduleDir, CardsTemplateFile)
  }

  /** The rendered page: `index.html` in the asset directory. */
  function AllCardsRenderedPath(inputPath: string): (p: string)
    ensures EndsWith(p, RenderedCardsFile)
    ensures InDirectory(p, inputPath)
    ensures p == inputPath + RenderedCardsFile || p == inputPath + [Sep] + RenderedCardsFile
  {
    Join(inputPath, RenderedCardsFile)
  }

  lemma LastOfSuffix(p: string, suffix: string)
    requires EndsWith(p, suffix) && suffix != []
    ensures p[|p| - 1] == suffix[|suffix| - 1]
  {
  }

  /** None of the three input files can be the rendered page, whatever the
      directories and the prefix: their names end in `.csv` or `.jinja2`,
      the page's in `.html`. So a change to any input is never mistaken for
      the page's own write. */
  lemma {:induction false} InputsAreNotThePage(inputPath: string, prefix: string, moduleDir: string)
    ensures CsvCardPath(inputPath, prefix) != AllCardsRenderedPath(inputPath)
    ensures SingleCardTemplatePath(inputPath, prefix) != AllCardsRenderedPath(inputPath)
    ensures CardsTemplatePath(moduleDir) != AllCardsRenderedPath(inputPath)
  {
    var page := AllCardsRenderedPath(inputPath);
    LastOfSuffix(page, RenderedCardsFile);
    LastOfSuffix(CsvCardPath(inputPath, prefix), prefix + ".csv");
    LastOfSuffix(SingleCardTemplatePath(inputPath, prefix), prefix + ".html.jinja2");
    LastOfSuffix(CardsTemplatePath(moduleDir), CardsTemplateFile);
  }
}
