/**
 * `DemoApp`: the target applications the demo can drive, each carrying its
 * initialisation parameters (package name and default activation code).
 */
module PosApiUtil {
  import opened Wrappers

  datatype PosApiInitParam = PosApiInitParam(packageName: string, defaultActivationCode: string)

  datatype DemoApp = MSA

  /** The parameters attached to each enum entry. */
  function Param(app: DemoApp): PosApiInitParam {
    match app
    case MSA => PosApiInitParam("com.minesec.msa.stage", "767747582904")
  }

  /** The enum entry's name, as `DemoApp.name` gives it. */
  function Name(app: DemoApp): string {
    match app
    case MSA => "MSA"
  }

  /** `DemoApp.valueOf(name)`: the entry of that name, or nothing (the exception). */
  function ValueOf(name: string): (r: Option<DemoApp>)
    ensures r.Some? ==> Name(r.value) == name
    ensures r.None? ==> forall app: DemoApp :: Name(app) != name
  {
    if name == "MSA" then Some(MSA) else None
  }

  /** Looking an entry up by its own name finds it. */
  lemma ValueOfName(app: DemoApp)
    ensures ValueOf(Name(app)) == Some(app)
  {
  }
}
