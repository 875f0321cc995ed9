/** Loading a shader program's sources: each path's file is read line by
    line into one source text, and the path's name decides the shader stage.
    Compiling and linking are not part of this model; a file system is a map
    from path to file text, and a path not in it cannot be opened. */
module Shaders {
  import opened Results

  datatype Stage = VertexStage | GeometryStage | FragmentStage

  datatype ShaderError = OpenFailed(path: string) | UnknownExtension(path: string)

  /** One loaded shader: its stage and its source text. */
  datatype Shader = Shader(stage: Stage, source: string)

  /** `path.find(pattern) != npos`: the pattern occurs anywhere in the path. */
  predicate Contains(s: string, pattern: string) {
    exists k :: 0 <= k <= |s| && pattern <= s[k..]
  }

  /** The stage rule: ".vert" anywhere gives the vertex stage, otherwise
      ".geom" gives the geometry stage, otherwise ".frag" gives the fragment
      stage; a path with none of the three is an error. */
  function StageOf(path: string): Result<Stage, ShaderError> {
    if Contains(path, ".vert") then Ok(VertexStage)
    else if Contains(path, ".geom") then Ok(GeometryStage)
    else if Contains(path, ".frag") then Ok(FragmentStage)
    else Err(UnknownExtension(path))
  }

  /** The rule is a priority order, not a test on the file's extension: a
      path naming both a fragment and a vertex shader is a vertex shader, and
      ".vert" counts even where it is not at the end. */
  lemma StageByContainsNotSuffix()
    ensures StageOf("ghost.frag.vert") == Ok(VertexStage)
    ensures StageOf("pacman.vert.frag") == Ok(VertexStage)
    ensures StageOf("old.geom.bak") == Ok(GeometryStage)
  {
    assert ".vert" <= "ghost.frag.vert"[10..];
    assert ".vert" <= "pacman.vert.frag"[6..];
    assert ".geom" <= "old.geom.bak"[3..];
    assert !Contains("old.geom.bak", ".vert") by {
      forall k | 0 <= k <= |"old.geom.bak"|
        ensures !(".vert" <= "old.geom.bak"[k..])
      {
        if k + 1 < |"old.geom.bak"| {
          assert "old.geom.bak"[k..][1] != 'v';
        }
      }
    }
  }

  /** A path that ends in one of the three extensions is never rejected; a
      ".vert" ending always gives the vertex stage, and the other two endings
      give their own stage unless a higher-priority pattern occurs earlier. */
  lemma ExtensionIsClassified(path: string, ext: string)
    requires ext == ".vert" || ext == ".geom" || ext == ".frag"
    requires |path| >= |ext| && path[|path| - |ext|..] == ext
    ensures StageOf(path).Ok?
    ensures ext == ".vert" ==> StageOf(path) == Ok(VertexStage)
    ensures ext == ".geom" && !Contains(path, ".vert") ==> StageOf(path) == Ok(GeometryStage)
    ensures ext == ".frag" && !Contains(path, ".vert") && !Contains(path, ".geom") ==> StageOf(path) == Ok(FragmentStage)
  {
    assert ext <= path[|path| - |ext|..];
  }

  /** Only the three patterns matter: the path is rejected exactly when none
      of them occurs in it, and the error names the path. */
  lemma StageOfRejects(path: string)
    ensures StageOf(path).Err? <==> !Contains(path, ".vert") && !Contains(path, ".geom") && !Contains(path, ".frag")
    ensures StageOf(path).Err? ==> StageOf(path).error == UnknownExtension(path)
  {
  }

  /** The index of the first line break of s, or |s| when there is none. */
  function NewlineAt(s: string): (i: nat)
    ensures i <= |s| && (i < |s| ==> s[i] == '\n')
  {
    if |s| == 0 || s[0] == '\n' then 0 else 1 + NewlineAt(s[1..])
  }

  /** No line break comes before the first one. */
  lemma {:induction false} NewlineAtIsFirst(s: string)
    ensures forall k :: 0 <= k < NewlineAt(s) ==> s[k] != '\n'
  {
    if |s| > 0 && s[0] != '\n' {
      NewlineAtIsFirst(s[1..]);
    }
  }

  /** The lines `getline` reads from a text: the pieces between line breaks,
      and a last piece without a line break if the text does not end with one. */
  function ReadLines(text: string): seq<string>
    decreases |text|
  {
    if |text| == 0 then []
    else
      var i := NewlineAt(text);
      if i == |text| then [text] else [text[..i]] + ReadLines(text[i + 1..])
  }

  /** The source text: every line followed by a line break. */
  function Joined(lines: seq<string>): string {
    if |lines| == 0 then "" else lines[0] + "\n" + Joined(lines[1..])
  }

  /** No line read contains a line break. */
  lemma {:induction false} ReadLinesHaveNoBreaks(text: string)
    ensures forall l :: l in ReadLines(text) ==> '\n' !in l
    decreases |text|
  {
    if |text| > 0 {
      var i := NewlineAt(text);
      NewlineAtIsFirst(text);
      if i < |text| {
        ReadLinesHaveNoBreaks(text[i + 1..]);
        assert forall c :: c in text[..i] ==> c != '\n';
      }
    }
  }

  /** Reading back the joined lines gives the lines, when none of them holds
      a line break. */
  lemma {:induction false} ReadLinesJoined(lines: seq<string>)
    requires forall l :: l in lines ==> '\n' !in l
    ensures ReadLines(Joined(lines)) == lines
  {
    if |lines| > 0 {
      var t := Joined(lines);
      var l := lines[0];
      assert l in lines;
      assert t == l + "\n" + Joined(lines[1..]);
      assert NewlineAt(t) == |l| by {
        NewlineAtIs(t, |l|);
      }
      assert t[..|l|] == l;
      assert t[|l| + 1..] == Joined(lines[1..]);
      assert forall m :: m in lines[1..] ==> m in lines;
      ReadLinesJoined(lines[1..]);
    }
  }

  /** The first line break is at i when s[i] is one and none comes before. */
  lemma {:induction false} NewlineAtIs(s: string, i: nat)
    requires i <= |s| && (i < |s| ==> s[i] == '\n')
    requires forall k :: 0 <= k < i ==> s[k] != '\n'
    ensures NewlineAt(s) == i
  {
    if i > 0 {
      NewlineAtIs(s[1..], i - 1);
    }
  }

  /** The source is the file text with a line break added at the end if it
      lacks one. */
  lemma {:induction false} SourceIsText(text: string)
    ensures Joined(ReadLines(text)) == if |text| == 0 || text[|text| - 1] == '\n' then text else text + "\n"
    decreases |text|
  {
    if |text| > 0 {
      var i := NewlineAt(text);
      NewlineAtIsFirst(text);
      ReadLinesStep(text, i);
      if i == |text| {
        assert text[..i] == text;
      } else {
        var rest := text[i + 1..];
        SourceIsText(rest);
        assert text == text[..i] + "\n" + rest;
        LineThenSource(text[..i], rest, Joined(ReadLines(rest)));
      }
    }
  }

  /** A line and its break before the source of the rest of a text is the
      source of the whole text. */
  lemma LineThenSource(head: string, rest: string, src: string)
    requires src == if |rest| == 0 || rest[|rest| - 1] == '\n' then rest else rest + "\n"
    ensures var t := head + "\n" + rest;
      head + "\n" + src == if t[|t| - 1] == '\n' then t else t + "\n"
  {
    var t := head + "\n" + rest;
    if |rest| > 0 {
      assert t[|t| - 1] == rest[|rest| - 1];
      assert head + "\n" + (rest + "\n") == t + "\n";
    }
  }

  /** Reading a non-empty text whose first line ends at q: that line, a line
      break, and then the source of what follows the break. */
  lemma ReadLinesStep(t: string, q: nat)
    requires 0 < |t| && q <= |t| && (q < |t| ==> t[q] == '\n')
    requires forall k :: 0 <= k < q ==> t[k] != '\n'
    ensures Joined(ReadLines(t)) == t[..q] + "\n" + Joined(ReadLines(if q < |t| then t[q + 1..] else ""))
  {
    NewlineAtIs(t, q);
    if q == |t| {
      assert ReadLines(t) == [t];
      assert Joined([t]) == t + "\n" + Joined([]);
      assert t[..q] == t;
    } else {
      assert ReadLines(t) == [t[..q]] + ReadLines(t[q + 1..]);
      JoinedCons(t[..q], ReadLines(t[q + 1..]));
    }
  }

  /** Joining a line in front of other lines. */
  lemma JoinedCons(l: string, lines: seq<string>)
    ensures Joined([l] + lines) == l + "\n" + Joined(lines)
  {
    assert ([l] + lines)[1..] == lines;
  }

  /** The `getline` loop: appends each line and a line break to the source. */
  method ReadSource(text: string) returns (source: string)
    ensures source == Joined(ReadLines(text))
  {
    source := "";
    var p := 0;
    while p < |text|
      invariant 0 <= p <= |text|
      invariant source + Joined(ReadLines(text[p..])) == Joined(ReadLines(text))
    {
      var q := LineEnd(text, p);
      ReadLinesFrom(text, p, q);
      AppendLine(source, text[p..q], Joined(ReadLines(text[if q < |text| then q + 1 else |text|..])));
      source := source + text[p..q] + "\n";
      p := if q < |text| then q + 1 else |text|;
    }
  }

  /** Appending a line and its break, then the rest, is appending the line,
      its break and the rest at once. */
  lemma AppendLine(source: string, line: string, rest: string)
    ensures (source + line + "\n") + rest == source + (line + "\n" + rest)
  {
  }

  /** The source of the text from position p on, whose first line ends at q. */
  lemma ReadLinesFrom(text: string, p: nat, q: nat)
    requires p < |text| && p <= q <= |text| && (q < |text| ==> text[q] == '\n')
    requires forall k :: p <= k < q ==> text[k] != '\n'
    ensures Joined(ReadLines(text[p..])) == text[p..q] + "\n" + Joined(ReadLines(text[if q < |text| then q + 1 else |text|..]))
  {
    var t := text[p..];
    ReadLinesStep(t, q - p);
    assert t[..q - p] == text[p..q];
    if q < |text| {
      assert t[q - p + 1..] == text[q + 1..];
    } else {
      assert text[|text|..] == "";
    }
  }

  /** Where the line starting at p ends: the next line break, or the end of
      the text. */
  method LineEnd(text: string, p: nat) returns (q: nat)
    requires p <= |text|
    ensures p <= q <= |text| && (q < |text| ==> text[q] == '\n')
    ensures forall k :: p <= k < q ==> text[k] != '\n'
  {
    q := p;
    while q < |text| && text[q] != '\n'
      invariant p <= q <= |text|
      invariant forall k :: p <= k < q ==> text[k] != '\n'
    {
      q := q + 1;
    }
  }

  /** One path: a file that cannot be opened fails before the path's name
      is looked at; otherwise its lines are read and the name decides the
      stage. */
  function LoadOne(path: string, files: map<string, string>): Result<Shader, ShaderError> {
    if path !in files then Err(OpenFailed(path))
    else
      match StageOf(path)
      case Err(e) => Err(e)
      case Ok(stage) => Ok(Shader(stage, Joined(ReadLines(files[path]))))
  }

  /** All paths in order, stopping at the first that fails. */
  function LoadAll(paths: seq<string>, files: map<string, string>): Result<seq<Shader>, ShaderError> {
    if |paths| == 0 then Ok([])
    else
      match LoadAll(paths[..|paths| - 1], files)
      case Err(e) => Err(e)
      case Ok(prev) =>
        match LoadOne(paths[|paths| - 1], files)
        case Err(e) => Err(e)
        case Ok(s) => Ok(prev + [s])
  }

  /** Loading succeeds exactly when every path loads, giving one shader per
      path in order; otherwise the error is that of the first path that
      fails, all paths before it having loaded. */
  lemma {:induction false} LoadAllSpec(paths: seq<string>, files: map<string, string>)
    ensures LoadAll(paths, files).Ok? <==> forall k :: 0 <= k < |paths| ==> LoadOne(paths[k], files).Ok?
    ensures LoadAll(paths, files).Ok? ==>
              && |LoadAll(paths, files).value| == |paths|
              && forall k :: 0 <= k < |paths| ==> LoadAll(paths, files).value[k] == LoadOne(paths[k], files).value
    ensures LoadAll(paths, files).Err? ==>
              exists k :: && 0 <= k < |paths|
                          && LoadOne(paths[k], files) == Err(LoadAll(paths, files).error)
                          && forall l :: 0 <= l < k ==> LoadOne(paths[l], files).Ok?
  {
    LoadAllOk(paths, files);
    LoadAllErr(paths, files);
  }

  /** The success half: one shader per path, in order, exactly when every
      path loads. */
  lemma {:induction false} LoadAllOk(paths: seq<string>, files: map<string, string>)
    ensures LoadAll(paths, files).Ok? <==> forall k :: 0 <= k < |paths| ==> LoadOne(paths[k], files).Ok?
    ensures LoadAll(paths, files).Ok? ==>
              && |LoadAll(paths, files).value| == |paths|
              && forall k :: 0 <= k < |paths| ==> LoadAll(paths, files).value[k] == LoadOne(paths[k], files).value
  {
    if |paths| > 0 {
      var n := |paths| - 1;
      LoadAllOk(paths[..n], files);
      assert forall k :: 0 <= k < n ==> paths[..n][k] == paths[k];
    }
  }

  /** The failure half: the error is that of the first path that fails. */
  lemma {:induction false} LoadAllErr(paths: seq<string>, files: map<string, string>)
    ensures LoadAll(paths, files).Err? ==>
              exists k :: && 0 <= k < |paths|
                          && LoadOne(paths[k], files) == Err(LoadAll(paths, files).error)
                          && forall l :: 0 <= l < k ==> LoadOne(paths[l], files).Ok?
  {
    if |paths| > 0 {
      var n := |paths| - 1;
      LoadAllOk(paths[..n], files);
      LoadAllErr(paths[..n], files);
      assert forall k :: 0 <= k < n ==> paths[..n][k] == paths[k];
      if LoadAll(paths[..n], files).Err? {
        var k :| && 0 <= k < n
                 && LoadOne(paths[..n][k], files) == Err(LoadAll(paths[..n], files).error)
                 && forall l :: 0 <= l < k ==> LoadOne(paths[..n][l], files).Ok?;
        assert LoadOne(paths[k], files) == Err(LoadAll(paths, files).error);
      } else if LoadAll(paths, files).Err? {
        assert LoadOne(paths[n], files) == Err(LoadAll(paths, files).error);
      }
    }
  }

  /** A file that cannot be opened is reported as such, whatever its name. */
  lemma OpenFailureFirst(path: string, files: map<string, string>)
    requires path !in files
    ensures LoadOne(path, files) == Err(OpenFailed(path))
  {
  }

  /** Once a prefix of the paths fails, loading all of them fails the same
      way: later paths are never looked at. */
  lemma {:induction false} LoadAllStopsAtError(paths: seq<string>, files: map<string, string>, m: nat)
    requires m <= |paths| && LoadAll(paths[..m], files).Err?
    ensures LoadAll(paths, files) == LoadAll(paths[..m], files)
  {
    if m < |paths| {
      var n := |paths| - 1;
      assert paths[..n][..m] == paths[..m];
      LoadAllStopsAtError(paths[..n], files, m);
    } else {
      assert paths[..m] == paths;
    }
  }

  /** `ShaderProgram::ShaderProgram` up to compiling: for each path in turn,
      open the file (or fail), read its lines, classify the path (or fail),
      and append the shader. */
  method LoadShaders(paths: seq<string>, files: map<string, string>) returns (r: Result<seq<Shader>, ShaderError>)
    ensures r == LoadAll(paths, files)
  {
    var shaders: seq<Shader> := [];
    for k := 0 to |paths|
      invariant LoadAll(paths[..k], files) == Ok(shaders)
    {
      var path := paths[k];
      assert paths[..k + 1][..k] == paths[..k];
      if path !in files {
        LoadAllStopsAtError(paths, files, k + 1);
        return Err(OpenFailed(path));
      }
      var source := ReadSource(files[path]);
      var stage := StageOf(path);
      if stage.Err? {
        LoadAllStopsAtError(paths, files, k + 1);
        return Err(stage.error);
      }
      shaders := shaders + [Shader(stage.value, source)];
    }
    assert paths[..|paths|] == paths;
    return Ok(shaders);
  }
}
