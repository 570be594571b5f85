/** The extension's settings: the five configuration values of the
    extension and the ordered selector overrides an options directive
    supplies. */
module Configuration {
  import opened Json
  import opened Options

  /** One selector override: a CSS selector and the options for the tables
      it matches */
  datatype Selector = Selector(selector: string, options: Options)

  datatype Config = Config(
    version: string,
    tableClass: string,
    options: Options,
    js: string,
    css: string,
    selectors: seq<Selector>)

  /** The values the extension registers when nothing is configured: the
      library version, the table class, an empty mapping and no URL
      overrides; plain settings carry no selector overrides. */
  const DEFAULT_CONFIG: Config := Config("2.3.5", "sphinx-datatable", Mapping([]), "", "", [])
}
