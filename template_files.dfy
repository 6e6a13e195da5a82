/** The `JSONTemplateFiles` class (index.js): constructor validation, then
 *  `findTemplates` (discover the default files, then the package files,
 *  then merge) and the dispatch plan of `processTemplates`. The results of
 *  the two globs are arguments. */
module TemplateFiles {
  import opened Wrappers
  import opened JsValues
  import opened Errors
  import opened PosixPath
  import opened Records
  import opened Discovery
  import opened Merging
  import opened Materialize

  /** The constructor's options; a missing option is `Undefined`. Once
   *  validated, the same four values are the instance's fields. */
  datatype Config = Config(
    packageTemplatePath: JsValue,
    defaultTemplatePath: JsValue,
    templateData: JsValue,
    outputPath: JsValue)
  {
    function Get(f: Field): JsValue {
      match f
      case PackageTemplatePath => packageTemplatePath
      case DefaultTemplatePath => defaultTemplatePath
      case TemplateData => templateData
      case OutputPath => outputPath
    }
  }

  /** `new JSONTemplateFiles(options)`: fails naming the first falsy option
   *  in the order packageTemplatePath, defaultTemplatePath, templateData,
   *  outputPath. */
  function New(options: Config): (r: Result<Config, Error>)
    ensures r.Ok? <==> forall f: Field :: Truthy(options.Get(f))
    ensures r.Ok? ==> r.value == options
    ensures r.Err? ==> r.error.ConfigurationError? && !Truthy(options.Get(r.error.missing))
    ensures r.Err? ==> forall f: Field :: f.Rank() < r.error.missing.Rank() ==> Truthy(options.Get(f))
  {
    if !Truthy(options.Get(PackageTemplatePath)) then Err(ConfigurationError(PackageTemplatePath))
    else if !Truthy(options.Get(DefaultTemplatePath)) then Err(ConfigurationError(DefaultTemplatePath))
    else if !Truthy(options.Get(TemplateData)) then Err(ConfigurationError(TemplateData))
    else if !Truthy(options.Get(OutputPath)) then Err(ConfigurationError(OutputPath))
    else Ok(options)
  }

  /** The instances whose destinations the model computes: the output root
   *  is a normal path string. */
  predicate ValidOutput(config: Config) {
    config.outputPath.Str? && NormalRoot(config.outputPath.s)
  }

  /** `findTemplates()`: decorate the default files, then the package
   *  files, and merge; the first failing path wins, defaults first. */
  function FindTemplates(config: Config, defaultFiles: seq<string>, packageFiles: seq<string>)
    : (r: Result<seq<TemplateRecord>, Error>)
    requires ValidOutput(config)
    requires forall k :: 0 <= k < |defaultFiles| ==> WellFormedSource(defaultFiles[k])
    requires forall k :: 0 <= k < |packageFiles| ==> WellFormedSource(packageFiles[k])
    ensures r.Ok? <==> (FirstUnmatched(defaultFiles) == |defaultFiles|
                        && FirstUnmatched(packageFiles) == |packageFiles|)
    ensures r.Ok? ==> DistinctDests(r.value)
    ensures r.Err? && FirstUnmatched(defaultFiles) < |defaultFiles| ==>
      r.error == PathResolutionError(defaultFiles[FirstUnmatched(defaultFiles)])
    ensures r.Err? && FirstUnmatched(defaultFiles) == |defaultFiles| ==>
      r.error == PathResolutionError(packageFiles[FirstUnmatched(packageFiles)])
  {
    var outputPath := config.outputPath.s;
    match MapFilePaths(outputPath, defaultFiles)
    case Err(e) => Err(e)
    case Ok(defaults) =>
      match MapFilePaths(outputPath, packageFiles)
      case Err(e) => Err(e)
      case Ok(packages) => Ok(MergeTemplates(defaults, packages))
  }

  /** When both sets decorate, the templates found are the merge of the
   *  decorated defaults and the decorated packages. */
  lemma FindTemplatesMerges(
    config: Config, defaultFiles: seq<string>, packageFiles: seq<string>,
    defaults: seq<TemplateRecord>, packages: seq<TemplateRecord>)
    requires ValidOutput(config)
    requires forall k :: 0 <= k < |defaultFiles| ==> WellFormedSource(defaultFiles[k])
    requires forall k :: 0 <= k < |packageFiles| ==> WellFormedSource(packageFiles[k])
    requires MapFilePaths(config.outputPath.s, defaultFiles) == Ok(defaults)
    requires MapFilePaths(config.outputPath.s, packageFiles) == Ok(packages)
    ensures FindTemplates(config, defaultFiles, packageFiles) == Ok(MergeTemplates(defaults, packages))
  {
  }

  /** Construction followed by `process()`, up to the actions it starts:
   *  a configuration error comes before any discovery, a discovery error
   *  is the run's error, and otherwise the actions are the plan of the
   *  templates found, each writing a destination no other action writes. */
  function Process(options: Config, defaultFiles: seq<string>, packageFiles: seq<string>)
    : (r: Result<seq<Action>, Error>)
    requires New(options).Ok? ==> ValidOutput(options)
    requires forall k :: 0 <= k < |defaultFiles| ==> WellFormedSource(defaultFiles[k])
    requires forall k :: 0 <= k < |packageFiles| ==> WellFormedSource(packageFiles[k])
    ensures New(options).Err? ==> r == Err(New(options).error)
    ensures New(options).Ok? ==>
      (r.Ok? <==> FindTemplates(options, defaultFiles, packageFiles).Ok?)
    ensures New(options).Ok? && r.Err? ==>
      r.error == FindTemplates(options, defaultFiles, packageFiles).error
    ensures New(options).Ok? && r.Ok? ==>
      r.value == Plan(FindTemplates(options, defaultFiles, packageFiles).value, options.templateData)
    ensures r.Ok? ==> forall i, j :: 0 <= i < j < |r.value| ==> r.value[i].destPath != r.value[j].destPath
  {
    match New(options)
    case Err(e) => Err(e)
    case Ok(config) =>
      match FindTemplates(config, defaultFiles, packageFiles)
      case Err(e) => Err(e)
      case Ok(templates) =>
        Ok(Plan(templates, config.templateData))
  }
}
