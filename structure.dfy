/** The test-project structure the driver reads from `structure.json`: the
    modules, the file to resolve and the `fails` flag. */
module Structure {
  import opened Errors
  import opened Json

  /** One declared module: its name and the names it depends on, in the
      order the structure lists them. */
  datatype TestProjectModule = TestProjectModule(name: string, dependsOnModules: seq<string>)

  /** What the structure reader yields: the module list and the whole JSON
      object it was read from. */
  datatype TestProjectStructure = TestProjectStructure(modules: seq<TestProjectModule>, json: map<string, JValue>)

  /** `FileToResolveForSealed`. */
  datatype FileToResolve = FileToResolve(moduleName: string, relativeFilePath: string)

  /** `MultiModuleTestProjectStructureForSealed`. */
  datatype SealedTestStructure = SealedTestStructure(modules: seq<TestProjectModule>, fileToResolve: FileToResolve, fails: bool)

  const FailsField: string := "fails"
  const FileToResolveField: string := "fileToResolve"

  /** `FileToResolveForSealed.filePath`, the path shown in diagnostics. */
  function FilePath(f: FileToResolve): (p: string)
    ensures |p| == |f.moduleName| + 1 + |f.relativeFilePath|
    ensures p[..|f.moduleName|] == f.moduleName && p[|f.moduleName|] == '/'
    ensures p[|f.moduleName| + 1..] == f.relativeFilePath
  {
    f.moduleName + "/" + f.relativeFilePath
  }

  /** The index of the first '/' in `s`, or `|s|` when there is none. */
  function FirstSlash(s: string): (k: nat)
    ensures k <= |s|
    ensures k < |s| ==> s[k] == '/'
    ensures forall j :: 0 <= j < k ==> s[j] != '/'
  {
    if s == [] then 0 else if s[0] == '/' then 0 else 1 + FirstSlash(s[1..])
  }

  /** Reads a diagnostic path back into the file reference it names: the
      module is everything before the first '/'. */
  function SplitFilePath(p: string): Option<FileToResolve>
  {
    var k := FirstSlash(p);
    if k < |p| then Some(FileToResolve(p[..k], p[k + 1..])) else None
  }

  /** The diagnostic path names its file unambiguously: for a module name
      without '/', splitting the path at its first '/' gives back exactly the
      module name and the relative path it was built from. */
  lemma FilePathSplits(f: FileToResolve)
    requires forall i :: 0 <= i < |f.moduleName| ==> f.moduleName[i] != '/'
    ensures SplitFilePath(FilePath(f)) == Some(f)
  {
    var p := FilePath(f);
    var m := |f.moduleName|;
    assert p[m] == '/';
    assert forall j :: 0 <= j < m ==> p[j] == f.moduleName[j];
    var k := FirstSlash(p);
    assert k == m;
    assert p[..k] == f.moduleName;
    assert p[k + 1..] == f.relativeFilePath;
  }

  /** `FileToResolveForSealed.parse`: the argument must be a JSON object
      (None stands for a null argument); `module` is read before `file`. */
  function Parse(json: Option<JValue>): (r: Result<FileToResolve>)
    ensures r.Ok? <==> json.Some? && json.value.JObject?
                       && GetString(json.value.members, "module").Ok?
                       && GetString(json.value.members, "file").Ok?
    ensures r.Ok? ==> (r.value.moduleName == GetString(json.value.members, "module").value
                       && r.value.relativeFilePath == GetString(json.value.members, "file").value)
    ensures json.Some? && json.value.JObject? && GetString(json.value.members, "module").Err?
            ==> r == Err(GetString(json.value.members, "module").error)
    ensures json.Some? && json.value.JObject? && GetString(json.value.members, "module").Ok?
            && GetString(json.value.members, "file").Err?
            ==> r == Err(GetString(json.value.members, "file").error)
    ensures json.None? ==> r == Err(RequirementFailed("json is not null"))
    ensures json.Some? && !json.value.JObject? ==> r == Err(RequirementFailed("json is JsonObject"))
    ensures r.Err? ==> IsMalformedStructure(r.error)
  {
    match json
    case None => Err(RequirementFailed("json is not null"))
    case Some(v) =>
      if !v.JObject? then Err(RequirementFailed("json is JsonObject"))
      else
        var moduleName := GetString(v.members, "module");
        if moduleName.Err? then Err(moduleName.error)
        else
          var relativeFilePath := GetString(v.members, "file");
          if relativeFilePath.Err? then Err(relativeFilePath.error)
          else Ok(FileToResolve(moduleName.value, relativeFilePath.value))
  }

  /** The failures that reading a malformed structure can raise. */
  predicate IsMalformedStructure(e: Failure)
  {
    e.JsonConversion? || e.MissingMember? || e.NotAnObject? || e.RequirementFailed?
  }

  /** `MultiModuleTestProjectStructureForSealed.fromTestProjectStructure`:
      `fails` is read first (false when the member is absent), then
      `fileToResolve`; the module list is passed through unchanged. */
  function FromTestProjectStructure(tps: TestProjectStructure): (r: Result<SealedTestStructure>)
    ensures r.Ok? ==> r.value.modules == tps.modules
    ensures r.Err? ==> IsMalformedStructure(r.error)
    ensures r.Ok? ==> r.value.fails == (FailsField in tps.json && AsBoolean(tps.json[FailsField]) == Ok(true))
    ensures FailsField in tps.json && AsBoolean(tps.json[FailsField]).Err?
            ==> r == Err(AsBoolean(tps.json[FailsField]).error)
    ensures r.Ok? <==> (FailsField !in tps.json || AsBoolean(tps.json[FailsField]).Ok?)
                       && FileToResolveField in tps.json && tps.json[FileToResolveField].JObject?
                       && Parse(Some(tps.json[FileToResolveField])).Ok?
    ensures r.Ok? ==> Parse(Some(tps.json[FileToResolveField])) == Ok(r.value.fileToResolve)
    ensures (FailsField !in tps.json || AsBoolean(tps.json[FailsField]).Ok?)
            && GetAsJsonObject(tps.json, FileToResolveField).Err?
            ==> r == Err(NotAnObject(FileToResolveField))
    ensures (FailsField !in tps.json || AsBoolean(tps.json[FailsField]).Ok?)
            && GetAsJsonObject(tps.json, FileToResolveField).Ok?
            && Parse(GetAsJsonObject(tps.json, FileToResolveField).value).Err?
            ==> r == Err(Parse(GetAsJsonObject(tps.json, FileToResolveField).value).error)
  {
    var json := tps.json;
    var fails := if FailsField in json then AsBoolean(json[FailsField]) else Ok(false);
    if fails.Err? then Err(fails.error)
    else
      var obj := GetAsJsonObject(json, FileToResolveField);
      if obj.Err? then Err(obj.error)
      else
        var fileToResolve := Parse(obj.value);
        if fileToResolve.Err? then Err(fileToResolve.error)
        else Ok(SealedTestStructure(tps.modules, fileToResolve.value, fails.value))
  }

  /** A structure with a string `module` and `file` and either no `fails` or
      a boolean one reads as exactly those values, `fails` defaulting to false. */
  lemma WellFormedStructureReads(tps: TestProjectStructure, moduleName: string, file: string)
    requires FileToResolveField in tps.json && tps.json[FileToResolveField].JObject?
    requires var members := tps.json[FileToResolveField].members;
             "module" in members && members["module"] == JString(moduleName)
             && "file" in members && members["file"] == JString(file)
    requires FailsField in tps.json ==> tps.json[FailsField].JBool?
    ensures FromTestProjectStructure(tps) == Ok(SealedTestStructure(
              tps.modules, FileToResolve(moduleName, file),
              FailsField in tps.json && tps.json[FailsField].b))
  {
  }
}
