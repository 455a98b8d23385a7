/** The parameter check and run configuration of main.go. */
module Cli {
  import opened Wrappers
  import EsEngine

  /** The error messages of the parameter check. */
  const EsUrlEmpty := "esurl can't be empty"
  const EsIdxEmpty := "index can't be empty"

  /** The values the command-line flags were parsed into. */
  datatype Flags = Flags(
    esurl: string,
    esuser: string,
    espasswd: string,
    esindex: string,
    estype: string,
    debug: bool,
    file: string,
    size: int)

  /** `isParaValid`: the URL is checked first, then the index name; the
      error is nil exactly when both are set. */
  function IsParaValid(f: Flags): (r: Option<string>)
    ensures r == None <==> f.esurl != "" && f.esindex != ""
    ensures f.esurl == "" ==> r == Some(EsUrlEmpty)
    ensures f.esurl != "" && f.esindex == "" ==> r == Some(EsIdxEmpty)
  {
    if f.esurl == "" then Some(EsUrlEmpty)
    else if f.esindex == "" then Some(EsIdxEmpty)
    else None
  }

  /** Only the URL and the index name matter to the check. */
  lemma OnlyUrlAndIndexMatter(f: Flags, g: Flags)
    requires f.esurl == g.esurl && f.esindex == g.esindex
    ensures IsParaValid(f) == IsParaValid(g)
  {
  }

  /** What `main` does after parsing: exit with the check's message, or run
      `Do` on the configuration built from the flags. */
  datatype Launch = Exit(message: string) | Run(info: EsEngine.EsInfo, file: string)

  function Start(f: Flags): (r: Launch)
    ensures r.Exit? <==> IsParaValid(f).Some?
    ensures r.Exit? ==> r.message == IsParaValid(f).value
    ensures r.Run? ==> r.file == f.file && r.info.mode == 0
    ensures r.Run? ==> r.info.esUrl == f.esurl && r.info.esIndex == f.esindex && r.info.esType == f.estype
    ensures r.Run? ==> r.info.esUser == f.esuser && r.info.esPass == f.espasswd
    ensures r.Run? ==> r.info.esSize == f.size && r.info.isDebug == f.debug
  {
    match IsParaValid(f)
    case Some(msg) => Exit(msg)
    case None =>
      Run(EsEngine.EsInfo(f.esurl, f.esuser, f.espasswd, f.esindex, f.estype, f.size, f.debug, 0), f.file)
  }

  /** `main` never sets Mode, so from the command line `Do` always exports. */
  lemma CliAlwaysExports(f: Flags)
    requires Start(f).Run?
    ensures EsEngine.DoBranch(Start(f).info) == EsEngine.ExportToFile
  {
  }
}
