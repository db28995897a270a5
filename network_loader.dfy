/** Locating and loading the network-weights file (`NNUE::load_networks`)
    and the check that the wanted network is the loaded one
    (`NNUE::verify`). Reading a file and parsing it is an oracle `parse`
    that, for a path and a transport format, yields the network's
    description or nothing. */
module NetworkLoader {

  datatype Option<T> = None | Some(value: T)

  /** `EvalFile`, passed and returned by value. */
  datatype EvalFile = EvalFile(optionName: string, defaultName: string,
                               current: string, netDescription: string)

  /** The two ways a candidate path is read: through `read_zipped_nnue`, or
      as a raw binary stream. */
  datatype Format = Zipped | Raw

  /** One call of `NNUE::load_eval` on the file at `path` read as `format`. */
  datatype Attempt = Attempt(path: string, format: Format)

  /** What `verify` concludes: the network is enabled, or the engine must
      stop because the wanted file (whose default is `defaultName`) was not
      loaded. */
  datatype Verdict = Enabled(file: string) | Fatal(file: string, defaultName: string)

  /** The wanted file: the option's value, or the default name when the
      option is empty. */
  function ResolveName(options: string -> string, ef: EvalFile): (name: string)
    ensures name == options(ef.optionName) || name == ef.defaultName
    ensures options(ef.optionName) != "" ==> name == options(ef.optionName)
    ensures name == "" <==> options(ef.optionName) == "" && ef.defaultName == ""
  {
    var userEvalFile := options(ef.optionName);
    if userEvalFile == "" then ef.defaultName else userEvalFile
  }

  /** The directories searched, in order: the working directory, then the
      engine's root directory. */
  function SearchDirs(rootDirectory: string): (dirs: seq<string>)
    ensures |dirs| == 2 && dirs[0] == "" && dirs[|dirs| - 1] == rootDirectory
  {
    ["", rootDirectory]
  }

  /** Within one directory: the compressed reading first, then the raw one. */
  function DirPlan(dir: string, name: string): (p: seq<Attempt>)
    ensures |p| == 2 && p[0].format == Zipped && p[1].format == Raw
    ensures forall a :: a in p ==> a.path == dir + name
  {
    [Attempt(dir + name, Zipped), Attempt(dir + name, Raw)]
  }

  /** Every attempt for `name` in `dirs`, in order. */
  function Plan(dirs: seq<string>, name: string): (p: seq<Attempt>)
    ensures |p| == 2 * |dirs|
  {
    if dirs == [] then []
    else Plan(dirs[..|dirs| - 1], name) + DirPlan(dirs[|dirs| - 1], name)
  }

  /** The description from the first attempt of `plan` that parses. */
  function FirstSuccess(plan: seq<Attempt>, parse: Attempt -> Option<string>): (r: Option<string>)
    ensures r.None? <==> forall i :: 0 <= i < |plan| ==> parse(plan[i]).None?
    ensures r.Some? ==> exists i :: 0 <= i < |plan| && parse(plan[i]) == r &&
                                    forall j :: 0 <= j < i ==> parse(plan[j]).None?
  {
    if plan == [] then None
    else if parse(plan[0]).Some? then parse(plan[0])
    else
      var r := FirstSuccess(plan[1..], parse);
      assert forall i :: 1 <= i < |plan| ==> plan[i] == plan[1..][i - 1];
      r
  }

  /** The attempts of `plan` that are made: all of them up to and including
      the first that parses. */
  function Tried(plan: seq<Attempt>, parse: Attempt -> Option<string>): (r: seq<Attempt>)
    ensures |r| <= |plan| && r == plan[..|r|]
    ensures forall j :: 0 <= j < |r| - 1 ==> parse(r[j]).None?
    ensures FirstSuccess(plan, parse).None? ==> r == plan
    ensures FirstSuccess(plan, parse).Some? ==> |r| > 0 && parse(r[|r| - 1]) == FirstSuccess(plan, parse)
  {
    if plan == [] then []
    else if parse(plan[0]).Some? then [plan[0]]
    else [plan[0]] + Tried(plan[1..], parse)
  }

  lemma {:induction false} FirstSuccessAppend(p: seq<Attempt>, q: seq<Attempt>, parse: Attempt -> Option<string>)
    ensures FirstSuccess(p + q, parse)
         == if FirstSuccess(p, parse).Some? then FirstSuccess(p, parse) else FirstSuccess(q, parse)
  {
    if p != [] {
      assert (p + q)[1..] == p[1..] + q;
      FirstSuccessAppend(p[1..], q, parse);
    } else {
      assert p + q == q;
    }
  }

  lemma {:induction false} TriedAppend(p: seq<Attempt>, q: seq<Attempt>, parse: Attempt -> Option<string>)
    ensures Tried(p + q, parse)
         == if FirstSuccess(p, parse).Some? then Tried(p, parse) else p + Tried(q, parse)
  {
    if p != [] {
      assert (p + q)[1..] == p[1..] + q;
      TriedAppend(p[1..], q, parse);
      FirstSuccessAppend(p[1..], q, parse);
      if parse(p[0]).None? && FirstSuccess(p[1..], parse).None? {
        assert p == [p[0]] + p[1..];
      }
    } else {
      assert p + q == q;
    }
  }

  /** `evalFile` after the attempts of `plan`: unchanged when none parses,
      otherwise naming `name` with the first description obtained. */
  function Outcome(ef: EvalFile, name: string, plan: seq<Attempt>,
                   parse: Attempt -> Option<string>): (r: EvalFile)
    ensures r.optionName == ef.optionName && r.defaultName == ef.defaultName
    ensures (forall i :: 0 <= i < |plan| ==> parse(plan[i]).None?) ==> r == ef
    ensures (exists i :: 0 <= i < |plan| && parse(plan[i]).Some?) ==>
              r.current == name && Some(r.netDescription) == FirstSuccess(plan, parse)
  {
    match FirstSuccess(plan, parse)
    case None => ef
    case Some(d) => ef.(current := name, netDescription := d)
  }

  /** Reference definition of what `load_networks` returns. */
  function LoadedFile(rootDirectory: string, options: string -> string, ef: EvalFile,
                      parse: Attempt -> Option<string>): (r: EvalFile)
    ensures r.optionName == ef.optionName && r.defaultName == ef.defaultName
    ensures r == ef || r.current == ResolveName(options, ef)
    ensures r.current == ef.current ==> r == ef
  {
    var name := ResolveName(options, ef);
    if ef.current == name then ef else Outcome(ef, name, Plan(SearchDirs(rootDirectory), name), parse)
  }

  /** Reference definition of the attempts `load_networks` makes. */
  function AttemptsMade(rootDirectory: string, options: string -> string, ef: EvalFile,
                        parse: Attempt -> Option<string>): (r: seq<Attempt>)
    ensures |r| <= 4
    ensures r == [] <==> ef.current == ResolveName(options, ef)
  {
    var name := ResolveName(options, ef);
    if ef.current == name then [] else Tried(Plan(SearchDirs(rootDirectory), name), parse)
  }

  lemma PlanStep(dirs: seq<string>, i: nat, name: string)
    requires i < |dirs|
    ensures Plan(dirs[..i + 1], name) == Plan(dirs[..i], name) + DirPlan(dirs[i], name)
  {
    assert dirs[..i + 1][..i] == dirs[..i];
  }

  /** One directory of `load_networks`: parse the compressed file and, failing
      that, the raw file. Returns the description obtained, if any, and the
      attempts made. */
  method TryDirectory(dir: string, name: string, parse: Attempt -> Option<string>)
    returns (description: Option<string>, tried: seq<Attempt>)
    ensures description == FirstSuccess(DirPlan(dir, name), parse)
    ensures tried == Tried(DirPlan(dir, name), parse)
  {
    var path := dir + name;
    description := parse(Attempt(path, Zipped));
    tried := [Attempt(path, Zipped)];
    if description.None? {
      description := parse(Attempt(path, Raw));
      tried := tried + [Attempt(path, Raw)];
    }
  }

  /** `NNUE::load_networks`: for each search directory, as long as the
      current network is not the wanted one, try that directory; the first
      description obtained sets the current name and the description
      together. Also returns the attempts made, in order. */
  method LoadNetworks(rootDirectory: string, options: string -> string, evalFile: EvalFile,
                      parse: Attempt -> Option<string>)
    returns (result: EvalFile, attempts: seq<Attempt>)
    ensures result == LoadedFile(rootDirectory, options, evalFile, parse)
    ensures attempts == AttemptsMade(rootDirectory, options, evalFile, parse)
  {
    var userEvalFile := ResolveName(options, evalFile);
    var dirs := SearchDirs(rootDirectory);
    result, attempts := evalFile, [];
    for i := 0 to |dirs|
      invariant evalFile.current == userEvalFile ==> result == evalFile && attempts == []
      invariant evalFile.current != userEvalFile ==>
                  result == Outcome(evalFile, userEvalFile, Plan(dirs[..i], userEvalFile), parse) &&
                  attempts == Tried(Plan(dirs[..i], userEvalFile), parse)
    {
      ghost var done := Plan(dirs[..i], userEvalFile);
      PlanStep(dirs, i, userEvalFile);
      FirstSuccessAppend(done, DirPlan(dirs[i], userEvalFile), parse);
      TriedAppend(done, DirPlan(dirs[i], userEvalFile), parse);
      if result.current != userEvalFile {
        var description, tried := TryDirectory(dirs[i], userEvalFile, parse);
        attempts := attempts + tried;
        if description.Some? {
          result := result.(current := userEvalFile, netDescription := description.value);
        }
      }
    }
    assert dirs[..|dirs|] == dirs;
  }

  /** The attempts are made in this order: compressed then raw in the
      working directory, then compressed then raw in the root directory. */
  lemma PlanOrder(rootDirectory: string, name: string)
    ensures Plan(SearchDirs(rootDirectory), name)
         == [Attempt(name, Zipped), Attempt(name, Raw),
             Attempt(rootDirectory + name, Zipped), Attempt(rootDirectory + name, Raw)]
  {
    var dirs := SearchDirs(rootDirectory);
    assert dirs[..1][..0] == [];
    assert dirs[..2][..1] == dirs[..1];
    assert dirs[..2] == dirs;
    assert "" + name == name;
  }

  /** When the wanted network is already the current one, nothing is
      attempted and the file record is returned as it was. */
  lemma LoadSkipsWhenCurrent(rootDirectory: string, options: string -> string, ef: EvalFile,
                             parse: Attempt -> Option<string>)
    requires ef.current == ResolveName(options, ef)
    ensures LoadedFile(rootDirectory, options, ef, parse) == ef
    ensures AttemptsMade(rootDirectory, options, ef, parse) == []
  {
  }

  /** When no attempt parses, every attempt is made and the file record is
      returned as it was. */
  lemma LoadUnchangedWhenNothingParses(rootDirectory: string, options: string -> string, ef: EvalFile,
                                       parse: Attempt -> Option<string>)
    requires var name := ResolveName(options, ef);
             forall a :: a in Plan(SearchDirs(rootDirectory), name) ==> parse(a).None?
    ensures LoadedFile(rootDirectory, options, ef, parse) == ef
    ensures var name := ResolveName(options, ef);
            ef.current != name ==> AttemptsMade(rootDirectory, options, ef, parse)
                                   == Plan(SearchDirs(rootDirectory), name)
  {
  }

  /** What a load can do to the record: the option and default names never
      change; either the record is returned as it was, or the current name
      becomes the wanted one and the description becomes the one parsed by
      the last attempt made, every earlier attempt having failed. */
  lemma LoadOutcome(rootDirectory: string, options: string -> string, ef: EvalFile,
                    parse: Attempt -> Option<string>)
    ensures var r := LoadedFile(rootDirectory, options, ef, parse);
            r.optionName == ef.optionName && r.defaultName == ef.defaultName
    ensures var r := LoadedFile(rootDirectory, options, ef, parse);
            var tried := AttemptsMade(rootDirectory, options, ef, parse);
            r != ef <==> |tried| > 0 && parse(tried[|tried| - 1]).Some?
    ensures var r := LoadedFile(rootDirectory, options, ef, parse);
            var tried := AttemptsMade(rootDirectory, options, ef, parse);
            r != ef ==> r.current == ResolveName(options, ef) &&
                        Some(r.netDescription) == parse(tried[|tried| - 1])
    ensures var tried := AttemptsMade(rootDirectory, options, ef, parse);
            tried == Plan(SearchDirs(rootDirectory), ResolveName(options, ef))[..|tried|] &&
            forall j :: 0 <= j < |tried| - 1 ==> parse(tried[j]).None?
  {
    var name := ResolveName(options, ef);
    if ef.current != name {
      var plan := Plan(SearchDirs(rootDirectory), name);
      match FirstSuccess(plan, parse)
      case None =>
      case Some(d) =>
        assert LoadedFile(rootDirectory, options, ef, parse).current == name;
    }
  }

  /** `NNUE::verify`, without its messages: the fatal path is taken exactly
      when the current network is not the wanted one. */
  function Verify(options: string -> string, ef: EvalFile): (r: Verdict)
    ensures r.file == ResolveName(options, ef)
    ensures r.Fatal? <==> ef.current != ResolveName(options, ef)
    ensures r.Fatal? ==> r.defaultName == ef.defaultName
  {
    var userEvalFile := ResolveName(options, ef);
    if ef.current != userEvalFile then Fatal(userEvalFile, ef.defaultName) else Enabled(userEvalFile)
  }

  /** A load followed by a verification with the same options is fatal
      exactly when the wanted network was not already current and no
      attempt parsed. */
  lemma VerifyAfterLoad(rootDirectory: string, options: string -> string, ef: EvalFile,
                        parse: Attempt -> Option<string>)
    ensures var name := ResolveName(options, ef);
            Verify(options, LoadedFile(rootDirectory, options, ef, parse)).Fatal?
            <==> ef.current != name && FirstSuccess(Plan(SearchDirs(rootDirectory), name), parse).None?
  {
    var r := LoadedFile(rootDirectory, options, ef, parse);
    assert r.optionName == ef.optionName && r.defaultName == ef.defaultName;
  }

  /** The engine starts with no network ("None"), the option asks for
      "custom.net", and no candidate file parses: verification is fatal and
      names "custom.net". */
  lemma VerifyFatalWhenNothingLoads(rootDirectory: string, defaultName: string,
                                    parse: Attempt -> Option<string>)
    requires forall a :: parse(a).None?
    ensures var options := (name: string) => if name == "EvalFile" then "custom.net" else "";
            var ef := EvalFile("EvalFile", defaultName, "None", "");
            Verify(options, LoadedFile(rootDirectory, options, ef, parse)) == Fatal("custom.net", defaultName)
  {
    var options := (name: string) => if name == "EvalFile" then "custom.net" else "";
    var ef := EvalFile("EvalFile", defaultName, "None", "");
    VerifyAfterLoad(rootDirectory, options, ef, parse);
  }
}
