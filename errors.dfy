/** The failures of the modelled core. */
module Errors {
  import opened Wrappers

  /** The four constructor options, in the order the constructor checks them. */
  datatype Field = PackageTemplatePath | DefaultTemplatePath | TemplateData | OutputPath
  {
    function Rank(): nat {
      match this
      case PackageTemplatePath => 0
      case DefaultTemplatePath => 1
      case TemplateData => 2
      case OutputPath => 3
    }

    function Name(): string {
      match this
      case PackageTemplatePath => "packageTemplatePath"
      case DefaultTemplatePath => "defaultTemplatePath"
      case TemplateData => "templateData"
      case OutputPath => "outputPath"
    }
  }

  datatype Error =
      /** `new Error("JSONTemplateFiles requires: <name>")` from the constructor. */
    | ConfigurationError(missing: Field)
      /** The TypeError getDestPath raises when `/templates/(.*)$` does not
       *  match the source path and `matches` is null. */
    | PathResolutionError(path: string)
  {
    /** The message the thrown error carries where the core writes it. The
     *  TypeError's text comes from the JavaScript engine. The ensures are
     *  the table itself: a message exactly for a configuration error, and
     *  then the constructor's text for the missing option. */
    function Message(): (m: Option<string>)
      ensures m.Some? <==> ConfigurationError?
      ensures m.Some? ==> m.value == ConfigurationMessage(missing)
    {
      match this
      case ConfigurationError(missing) => Some(ConfigurationMessage(missing))
      case PathResolutionError(_) => None
    }
  }

  const RequiresPrefix: string := "JSONTemplateFiles requires: "

  /** The constructor's message for a missing option. */
  function ConfigurationMessage(missing: Field): (m: string)
    ensures |RequiresPrefix| < |m| && m[..|RequiresPrefix|] == RequiresPrefix
  {
    RequiresPrefix + missing.Name()
  }

  /** Each missing option has its own message, so the message tells which
   *  option was missing. */
  lemma ConfigurationMessageNamesField(f: Field, g: Field)
    requires ConfigurationMessage(f) == ConfigurationMessage(g)
    ensures f == g
  {
    var n := |RequiresPrefix|;
    assert f.Name() == ConfigurationMessage(f)[n..];
    assert g.Name() == ConfigurationMessage(g)[n..];
    assert "packageTemplatePath"[0] == 'p' && "defaultTemplatePath"[0] == 'd';
    assert "templateData"[0] == 't' && "outputPath"[0] == 'o';
  }
}
