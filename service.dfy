/** internal/config/blueprint/service/service.go: a service as configured
    and its conversion into a domain service. */
module ConfigService {
  import opened Wrappers
  import opened Collaborators
  import ConfigSpan
  import TaskModel

  /** `service.Service`. */
  datatype Service = Service(name: string, resource: map<string, string>, spanDefinitions: seq<ConfigSpan.SpanDefinition>)

  function SpanConverter(lib: Library): ConfigSpan.SpanDefinition -> Result<TaskModel.Task>
  {
    sd => ConfigSpan.Conversion(sd, lib)
  }

  /** What `Service.To` computes: the service's name and resource with its
      root spans converted in order, or the first span's error. */
  function Conversion(s: Service, lib: Library): (r: Result<TaskModel.Service>)
    ensures r.Ok? <==> forall i :: 0 <= i < |s.spanDefinitions| ==> ConfigSpan.Conversion(s.spanDefinitions[i], lib).Ok?
    ensures r.Ok? ==> r.value.name == s.name && r.value.resource == s.resource
    ensures r.Ok? ==> |r.value.tasks| == |s.spanDefinitions|
    ensures r.Ok? ==> forall i :: 0 <= i < |s.spanDefinitions| ==>
                        ConfigSpan.Conversion(s.spanDefinitions[i], lib) == Ok(r.value.tasks[i])
    ensures r.Err? ==> exists i :: 0 <= i < |s.spanDefinitions| && ConfigSpan.Conversion(s.spanDefinitions[i], lib) == Err(r.error)
                         && forall j :: 0 <= j < i ==> ConfigSpan.Conversion(s.spanDefinitions[j], lib).Ok?
    ensures s.spanDefinitions == [] ==> r == Ok(TaskModel.Service(s.name, s.resource, []))
  {
    var tasks := MapResults(s.spanDefinitions, SpanConverter(lib));
    MapResultsMeaning(s.spanDefinitions, SpanConverter(lib));
    assert forall i :: 0 <= i < |s.spanDefinitions| ==>
      SpanConverter(lib)(s.spanDefinitions[i]) == ConfigSpan.Conversion(s.spanDefinitions[i], lib);
    match tasks
    case Err(e) => Err(e)
    case Ok(ts) => Ok(TaskModel.Service(s.name, s.resource, ts))
  }

  /** `Service.To`: appends each converted span definition in turn. */
  method To(s: Service, lib: Library) returns (r: Result<TaskModel.Service>)
    ensures r == Conversion(s, lib)
  {
    var f := SpanConverter(lib);
    var sds := s.spanDefinitions;
    var tasks: seq<TaskModel.Task> := [];
    assert sds[0..] == sds;
    PrependNil(MapResults(sds, f));
    for i := 0 to |sds|
      invariant MapResults(sds, f) == Prepend(tasks, MapResults(sds[i..], f))
    {
      MapResultsStep(sds, i, f);
      var t := ConfigSpan.To(sds[i], lib);
      if t.Err? {
        return Err(t.error);
      }
      PrependOne(tasks, t.value, MapResults(sds[i + 1..], f));
      tasks := tasks + [t.value];
    }
    assert sds[|sds|..] == [];
    PrependAll(tasks);
    return Ok(TaskModel.Service(s.name, s.resource, tasks));
  }
}
