/** The dispatch rule of `processTemplates` (index.js lines 65-70) as a
 *  plan of actions; reading, rendering, writing and copying files are not
 *  modelled. */
module Materialize {
  import opened JsValues
  import opened Records

  /** What `processTemplates` starts for one record. `Copy` records the
   *  arguments `copyFile` passes as written: it ensures the SOURCE
   *  record's directory and hands `fs.copy` the whole record as its source. */
  datatype Action =
    | Render(srcPath: string, destPath: string, data: JsValue)
    | Copy(ensureDir: string, source: TemplateRecord, destPath: string)

  /** `template.isTemplate ? processTemplate(template) : copyFile(template)`. */
  function ActionFor(t: TemplateRecord, data: JsValue): (r: Action)
    ensures r.destPath == t.destPath
    ensures r.Render? <==> t.isTemplate
    ensures r.Render? ==> r.srcPath == t.srcPath && r.data == data
    ensures r.Copy? ==> r.source == t && r.ensureDir == t.dirname
  {
    if t.isTemplate then Render(t.srcPath, t.destPath, data) else Copy(t.dirname, t, t.destPath)
  }

  /** One action per record, in order. */
  function Plan(templates: seq<TemplateRecord>, data: JsValue): (r: seq<Action>)
    ensures |r| == |templates|
    ensures forall i :: 0 <= i < |r| ==>
      && r[i].destPath == templates[i].destPath
      && (r[i].Render? <==> templates[i].isTemplate)
    ensures forall i :: 0 <= i < |r| && r[i].Render? ==>
      r[i].srcPath == templates[i].srcPath && r[i].data == data
    ensures forall i :: 0 <= i < |r| && r[i].Copy? ==>
      r[i].source == templates[i] && r[i].ensureDir == templates[i].dirname
  {
    if templates == [] then [] else [ActionFor(templates[0], data)] + Plan(templates[1..], data)
  }
}
