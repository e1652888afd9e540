/**
 * `ImageLoader.LoadAsync`: loads the data image tar into docker, checks the
 * image is listed, and removes the image the tag pointed to before, if it
 * changed. Docker is outside the model: the k-th docker command of a run
 * gets `docker(k)`, its exit code and captured standard output. What is
 * modelled is the parsing of that output and the decisions taken on it.
 */
module ImageLoader {
  import opened Wrappers
  import opened Text
  import ConfigurationReader

  /**
   * `output.Split(["\r\n", "\n"], ...)` before trimming and dropping empty
   * entries: the pieces between line breaks, `current` being the piece read
   * so far.
   */
  function SplitNewLines(s: string, current: string): seq<string>
    decreases |s|
  {
    if s == [] then [current]
    else if |s| >= 2 && s[0] == '\r' && s[1] == '\n' then [current] + SplitNewLines(s[2..], "")
    else if s[0] == '\n' then [current] + SplitNewLines(s[1..], "")
    else SplitNewLines(s[1..], current + [s[0]])
  }

  /** No piece holds a line break, and there is always at least one piece. */
  lemma {:induction false} SplitNewLinesPieces(s: string, current: string)
    requires '\n' !in current
    ensures |SplitNewLines(s, current)| > 0
    ensures forall i :: 0 <= i < |SplitNewLines(s, current)| ==> '\n' !in SplitNewLines(s, current)[i]
    decreases |s|
  {
    if s == [] {
    } else if |s| >= 2 && s[0] == '\r' && s[1] == '\n' {
      SplitNewLinesPieces(s[2..], "");
    } else if s[0] == '\n' {
      SplitNewLinesPieces(s[1..], "");
    } else {
      SplitNewLinesPieces(s[1..], current + [s[0]]);
    }
  }

  /** A trimmed string's characters are characters of the original. */
  lemma TrimKeeps(s: string, c: char)
    requires c !in s
    ensures c !in Trim(s)
  {
    var u := TrimStart(s);
    TrimStartSpec(s);
    assert forall i :: 0 <= i < |u| ==> u[i] == s[|s| - |u| + i];
    var t := TrimEnd(u);
    TrimEndSpec(u);
    assert forall i :: 0 <= i < |t| ==> t[i] == u[i];
  }

  /** A line as `Lines` yields it: not empty, no line break, no white space at either end. */
  predicate IsLine(t: string)
  {
    t != [] && '\n' !in t && !IsWhiteSpace(t[0]) && !IsWhiteSpace(t[|t| - 1])
  }

  lemma TrimmedLine(s: string)
    requires '\n' !in s && Trim(s) != []
    ensures IsLine(Trim(s))
  {
    TrimmedEnds(s);
    TrimKeeps(s, '\n');
  }

  /** `StringSplitOptions.TrimEntries | RemoveEmptyEntries` over the pieces. */
  function TrimNonEmpty(pieces: seq<string>): seq<string>
  {
    if pieces == [] then []
    else if Trim(pieces[0]) == [] then TrimNonEmpty(pieces[1..])
    else [Trim(pieces[0])] + TrimNonEmpty(pieces[1..])
  }

  /** Trimming and dropping blanks keeps at most the pieces there were, each a line. */
  lemma {:induction false} TrimNonEmptyLines(pieces: seq<string>)
    requires forall i :: 0 <= i < |pieces| ==> '\n' !in pieces[i]
    ensures |TrimNonEmpty(pieces)| <= |pieces|
    ensures forall i :: 0 <= i < |TrimNonEmpty(pieces)| ==> IsLine(TrimNonEmpty(pieces)[i])
  {
    if pieces != [] {
      TrimNonEmptyLines(pieces[1..]);
      if Trim(pieces[0]) != [] {
        TrimmedLine(pieces[0]);
      }
    }
  }

  /** The lines of captured docker output: split on either line break, trimmed, blank ones dropped. */
  function Lines(output: string): seq<string>
  {
    TrimNonEmpty(SplitNewLines(output, ""))
  }

  /** Every entry of `Lines` is a line: none is blank, none holds a break or edge white space. */
  lemma LinesAreLines(output: string)
    ensures forall i :: 0 <= i < |Lines(output)| ==> IsLine(Lines(output)[i])
  {
    SplitNewLinesPieces(output, "");
    TrimNonEmptyLines(SplitNewLines(output, ""));
  }

  /** `line.Split('|', 2)` when it has two parts: the text before the first `|`, and all the rest. */
  function SplitPipe(line: string): (r: Option<(string, string)>)
    ensures r.None? <==> '|' !in line
    ensures r.Some? ==> line == r.value.0 + "|" + r.value.1 && '|' !in r.value.0
  {
    if line == [] then None
    else if line[0] == '|' then Some(([], line[1..]))
    else
      match SplitPipe(line[1..])
      case None => None
      case Some((before, after)) => Some(([line[0]] + before, after))
  }

  /** Splitting at the first `|` is the only way to split there: the id part keeps any further `|`. */
  lemma {:induction false} SplitPipeUnique(before: string, after: string)
    requires '|' !in before
    ensures SplitPipe(before + "|" + after) == Some((before, after))
  {
    var line := before + "|" + after;
    if before == [] {
      assert line[0] == '|' && line[1..] == after;
    } else {
      assert line[0] == before[0] && line[1..] == before[1..] + "|" + after;
      SplitPipeUnique(before[1..], after);
      assert [before[0]] + before[1..] == before;
    }
  }

  /** A line names `repository` (ignoring case) before its first `|`. */
  predicate Matches(line: string, repository: string)
  {
    SplitPipe(line).Some? && EqualsIgnoreCase(SplitPipe(line).value.0, repository)
  }

  /** `TryGetImageIdAsync`'s search: the id part of the first line that names `repository`, or null. */
  function TryGetImageId(lines: seq<string>, repository: string): Option<string>
  {
    if lines == [] then None
    else if Matches(lines[0], repository) then Some(SplitPipe(lines[0]).value.1)
    else TryGetImageId(lines[1..], repository)
  }

  /** The search returns the id of the first matching line. */
  lemma {:induction false} TryGetImageIdFirst(lines: seq<string>, repository: string, k: nat)
    requires k < |lines| && Matches(lines[k], repository)
    requires forall j :: 0 <= j < k ==> !Matches(lines[j], repository)
    ensures TryGetImageId(lines, repository) == Some(SplitPipe(lines[k]).value.1)
  {
    if k > 0 {
      assert !Matches(lines[0], repository);
      TryGetImageIdFirst(lines[1..], repository, k - 1);
    }
  }

  /** The search returns null exactly when no line matches. */
  lemma {:induction false} TryGetImageIdNone(lines: seq<string>, repository: string)
    ensures TryGetImageId(lines, repository).None? <==> forall k :: 0 <= k < |lines| ==> !Matches(lines[k], repository)
  {
    if lines != [] {
      TryGetImageIdNone(lines[1..], repository);
      if !Matches(lines[0], repository) && forall k :: 0 <= k < |lines| - 1 ==> !Matches(lines[1..][k], repository) {
        forall k | 0 <= k < |lines| ensures !Matches(lines[k], repository) {
          if k > 0 {
            assert lines[k] == lines[1..][k - 1];
          }
        }
      }
    }
  }

  /** `TryGetImageIdAsync` on the output of `image ls --format "{{.Repository}}|{{.ID}}"`. */
  function ImageIdIn(output: string, repository: string): Option<string>
  {
    TryGetImageId(Lines(output), repository)
  }

  /** The previous image is removed only when both ids are present, not blank, and differ ignoring case. */
  predicate ShouldRemovePrevious(previous: Option<string>, loaded: Option<string>)
  {
    !IsNullOrWhiteSpace(previous) && !IsNullOrWhiteSpace(loaded) && !NullableEqualsIgnoreCase(previous, loaded)
  }

  /** The image just loaded is never the one removed. */
  lemma NeverRemoveLoaded(previous: Option<string>, loaded: Option<string>)
    requires ShouldRemovePrevious(previous, loaded)
    ensures previous != loaded && previous.Some? && loaded.Some? && !EqualsIgnoreCase(loaded.value, previous.value)
  {
  }

  /** `$"fss-data-{env}"`. */
  function ImageName(environmentName: string): string
  {
    "fss-data-" + environmentName
  }

  /** `Path.Combine(a, b)` with `/` as the directory separator. */
  function CombinePath(a: string, b: string): (r: string)
    ensures b == [] ==> r == a
    ensures a != [] && b != [] && b[0] != '/' && a[|a| - 1] != '/' ==> r == a + "/" + b
  {
    if b == [] then a
    else if b[0] == '/' then b
    else if a == [] then b
    else if a[|a| - 1] == '/' then a + b
    else a + "/" + b
  }

  /** `<dataImagePath>/<imageName>.tar`. */
  function TarPath(dataImagePath: string, environmentName: string): string
  {
    CombinePath(dataImagePath, ImageName(environmentName) + ".tar")
  }

  /** The docker commands `LoadAsync` issues; `Args` is the command line after `docker`. */
  datatype DockerCommand =
    | ListImageIds
    | LoadImage(tarPath: string)
    | ListRepositories
    | RemoveImage(imageId: string)
    | PruneImages
  {
    function Args(): string
    {
      match this
      case ListImageIds => "image ls --format \"{{.Repository}}|{{.ID}}\""
      case LoadImage(tarPath) => "load -i \"" + tarPath + "\""
      case ListRepositories => "image ls --format \"{{.Repository}}\""
      case RemoveImage(imageId) => "image rm -f " + imageId
      case PruneImages => "image prune -f"
    }
  }

  /** A docker run: its exit code and what it wrote to standard output. */
  datatype DockerRun = DockerRun(exitCode: int, stdout: string)

  datatype LoadError =
    | Config(error: ConfigurationReader.ConfigError)
    | TarNotFound(path: string)                 // FileNotFoundException
    | DockerFailed(args: string, exitCode: int) // InvalidOperationException
    | ImageNotFoundAfterLoad(imageName: string) // InvalidOperationException

  /** `repositories.Contains(imageName, StringComparer.OrdinalIgnoreCase)`. */
  predicate ContainsIgnoreCase(lines: seq<string>, name: string)
  {
    exists i :: 0 <= i < |lines| && EqualsIgnoreCase(lines[i], name)
  }

  /** The commands after the repository check: list the ids again, remove the previous image if it was replaced, prune. */
  function ReplaceCommands(previous: Option<string>, loaded: Option<string>): seq<DockerCommand>
    requires ShouldRemovePrevious(previous, loaded) ==> previous.Some?
  {
    [ListImageIds]
    + (if ShouldRemovePrevious(previous, loaded) then [RemoveImage(previous.value)] else [])
    + [PruneImages]
  }

  /** The commands of a run that gets through: what is removed depends on the two id listings. */
  function SuccessfulCommands(tarPath: string, previous: Option<string>, loaded: Option<string>): seq<DockerCommand>
    requires ShouldRemovePrevious(previous, loaded) ==> previous.Some?
  {
    [ListImageIds, LoadImage(tarPath), ListRepositories] + ReplaceCommands(previous, loaded)
  }

  /** The first `n` docker commands of a run all exited with 0. */
  predicate SucceededBefore(docker: nat -> DockerRun, n: nat)
  {
    forall k :: 0 <= k < n ==> docker(k).exitCode == 0
  }

  lemma SucceededThrough(docker: nat -> DockerRun, n: nat)
    requires SucceededBefore(docker, n) && docker(n).exitCode == 0
    ensures SucceededBefore(docker, n + 1)
  {
  }

  lemma PrefixOfLonger<T>(a: seq<T>, b: seq<T>, c: seq<T>)
    requires |a| <= |b| && a == b[..|a|]
    ensures a <= b + c
  {
    assert (b + c)[..|a|] == b[..|a|];
  }

  lemma PrefixAppend<T>(a: seq<T>, b: seq<T>, c: seq<T>)
    requires b <= c
    ensures a + b <= a + c
  {
    assert |b| <= |c| && b == c[..|b|];
    assert (a + c)[..|a + b|] == a + c[..|b|];
  }

  /** The commands of a successful run, one by one. */
  lemma SuccessfulCommandsShape(tarPath: string, previous: Option<string>, loaded: Option<string>)
    requires ShouldRemovePrevious(previous, loaded) ==> previous.Some?
    ensures var c := SuccessfulCommands(tarPath, previous, loaded);
      && |c| == (if ShouldRemovePrevious(previous, loaded) then 6 else 5)
      && c[..1] == [ListImageIds]
      && c[..2] == [ListImageIds, LoadImage(tarPath)]
      && c[..3] == [ListImageIds, LoadImage(tarPath), ListRepositories]
      && c[..4] == [ListImageIds, LoadImage(tarPath), ListRepositories, ListImageIds]
      && c[|c| - 1] == PruneImages
      && (ShouldRemovePrevious(previous, loaded) ==> c[4] == RemoveImage(previous.value))
  {
  }

  /**
   * Whatever prefix of a successful run was issued, it removes an image
   * only at the fifth command, only the previous one, and only when
   * `ShouldRemovePrevious` holds of the two ids.
   */
  lemma RemovesOnlyPrevious(commands: seq<DockerCommand>, tarPath: string, previous: Option<string>, loaded: Option<string>)
    requires ShouldRemovePrevious(previous, loaded) ==> previous.Some?
    requires commands <= SuccessfulCommands(tarPath, previous, loaded)
    ensures forall k :: 0 <= k < |commands| && commands[k].RemoveImage? ==>
      k == 4 && ShouldRemovePrevious(previous, loaded) && Some(commands[k].imageId) == previous
  {
    var c := SuccessfulCommands(tarPath, previous, loaded);
    SuccessfulCommandsShape(tarPath, previous, loaded);
    forall k | 0 <= k < |commands| && commands[k].RemoveImage?
      ensures k == 4 && ShouldRemovePrevious(previous, loaded) && Some(commands[k].imageId) == previous
    {
      assert commands[k] == c[k];
    }
  }

  /**
   * The first half of the docker part of `LoadAsync`: read the id the tag
   * points to, load the tar, and check the repository is listed. A command
   * that exits non-zero ends the run.
   */
  method LoadAndVerify(tarPath: string, imageName: string, docker: nat -> DockerRun)
    returns (commands: seq<DockerCommand>, previous: Option<string>, error: Option<LoadError>)
    ensures 1 <= |commands| <= 3 && commands == [ListImageIds, LoadImage(tarPath), ListRepositories][..|commands|]
    ensures SucceededBefore(docker, |commands| - 1)
    ensures error.None? <==> |commands| == 3 && docker(2).exitCode == 0 && ContainsIgnoreCase(Lines(docker(2).stdout), imageName)
    ensures error.None? ==> previous == ImageIdIn(docker(0).stdout, imageName)
    ensures error.Some? ==> error.value.DockerFailed? || error.value.ImageNotFoundAfterLoad?
    ensures error.Some? && error.value.DockerFailed? ==>
      error.value == DockerFailed(commands[|commands| - 1].Args(), docker(|commands| - 1).exitCode)
      && docker(|commands| - 1).exitCode != 0
    ensures error.Some? && error.value.ImageNotFoundAfterLoad? ==>
      |commands| == 3 && error.value.imageName == imageName && !ContainsIgnoreCase(Lines(docker(2).stdout), imageName)
  {
    commands := [ListImageIds];
    previous := None;
    var run := docker(0);
    if run.exitCode != 0 {
      return commands, previous, Some(DockerFailed(ListImageIds.Args(), run.exitCode));
    }
    SucceededThrough(docker, 0);
    previous := ImageIdIn(run.stdout, imageName);

    commands := [ListImageIds, LoadImage(tarPath)];
    run := docker(1);
    if run.exitCode != 0 {
      return commands, previous, Some(DockerFailed(LoadImage(tarPath).Args(), run.exitCode));
    }
    SucceededThrough(docker, 1);

    commands := [ListImageIds, LoadImage(tarPath), ListRepositories];
    run := docker(2);
    if run.exitCode != 0 {
      return commands, previous, Some(DockerFailed(ListRepositories.Args(), run.exitCode));
    }
    var repositories := Lines(run.stdout);
    if !ContainsIgnoreCase(repositories, imageName) {
      return commands, previous, Some(ImageNotFoundAfterLoad(imageName));
    }
    error := None;
  }

  /**
   * The second half, from the fourth docker command on: read the id the tag
   * points to now, remove `previous` if `ShouldRemovePrevious` holds, and
   * prune. The commands issued are a prefix of `ReplaceCommands`.
   */
  method ReplacePrevious(previous: Option<string>, imageName: string, docker: nat -> DockerRun)
    returns (commands: seq<DockerCommand>, error: Option<LoadError>)
    requires SucceededBefore(docker, 3)
    ensures commands != [] && SucceededBefore(docker, 3 + |commands| - 1)
    ensures commands <= ReplaceCommands(previous, ImageIdIn(docker(3).stdout, imageName))
    ensures error.None? <==>
      commands == ReplaceCommands(previous, ImageIdIn(docker(3).stdout, imageName))
      && docker(3 + |commands| - 1).exitCode == 0
    ensures error.Some? ==>
      error.value == DockerFailed(commands[|commands| - 1].Args(), docker(3 + |commands| - 1).exitCode)
      && docker(3 + |commands| - 1).exitCode != 0
  {
    commands := [ListImageIds];
    var run := docker(3);
    if run.exitCode != 0 {
      return commands, Some(DockerFailed(ListImageIds.Args(), run.exitCode));
    }
    SucceededThrough(docker, 3);
    var loaded := ImageIdIn(run.stdout, imageName);

    if ShouldRemovePrevious(previous, loaded) {
      commands := [ListImageIds, RemoveImage(previous.value)];
      run := docker(4);
      if run.exitCode != 0 {
        return commands, Some(DockerFailed(RemoveImage(previous.value).Args(), run.exitCode));
      }
      SucceededThrough(docker, 4);
      commands := [ListImageIds, RemoveImage(previous.value), PruneImages];
    } else {
      commands := [ListImageIds, PruneImages];
    }
    run := docker(3 + |commands| - 1);
    if run.exitCode != 0 {
      return commands, Some(DockerFailed(PruneImages.Args(), run.exitCode));
    }
    error := None;
  }

  /**
   * The docker part of `LoadAsync` once the tar file is known to exist.
   * The commands issued are always a prefix of the successful run's; each
   * one that exits non-zero ends the run, and a repository missing after
   * the load ends it before any image is removed.
   */
  method LoadAndReplaceImage(tarPath: string, imageName: string, docker: nat -> DockerRun)
    returns (commands: seq<DockerCommand>, error: Option<LoadError>)
    ensures commands != [] && SucceededBefore(docker, |commands| - 1)
    ensures commands <= SuccessfulCommands(tarPath, ImageIdIn(docker(0).stdout, imageName), ImageIdIn(docker(3).stdout, imageName))
    ensures error.None? <==>
      commands == SuccessfulCommands(tarPath, ImageIdIn(docker(0).stdout, imageName), ImageIdIn(docker(3).stdout, imageName))
      && docker(|commands| - 1).exitCode == 0
    ensures error.Some? ==> error.value.DockerFailed? || error.value.ImageNotFoundAfterLoad?
    ensures error.Some? && error.value.DockerFailed? ==>
      error.value == DockerFailed(commands[|commands| - 1].Args(), docker(|commands| - 1).exitCode)
      && docker(|commands| - 1).exitCode != 0
    ensures error.Some? && error.value.ImageNotFoundAfterLoad? ==>
      |commands| == 3 && error.value.imageName == imageName && !ContainsIgnoreCase(Lines(docker(2).stdout), imageName)
    ensures |commands| > 3 ==> ContainsIgnoreCase(Lines(docker(2).stdout), imageName)
  {
    var first, previous, firstError := LoadAndVerify(tarPath, imageName, docker);
    ghost var listed := ImageIdIn(docker(0).stdout, imageName);
    ghost var loaded := ImageIdIn(docker(3).stdout, imageName);
    ghost var full := SuccessfulCommands(tarPath, listed, loaded);
    assert full == [ListImageIds, LoadImage(tarPath), ListRepositories] + ReplaceCommands(listed, loaded);
    if firstError.Some? {
      PrefixOfLonger(first, [ListImageIds, LoadImage(tarPath), ListRepositories], ReplaceCommands(listed, loaded));
      return first, firstError;
    }
    SucceededThrough(docker, 2);
    var rest, restError := ReplacePrevious(previous, imageName, docker);
    commands := first + rest;
    PrefixAppend(first, rest, ReplaceCommands(previous, loaded));
    return commands, restError;
  }

  /**
   * `LoadAsync`: the environment name and data image path settings, then
   * the tar file `<dataImagePath>/fss-data-<env>.tar` must exist before any
   * docker command is run.
   */
  method LoadAsync(
    file: ConfigurationReader.ConfigFile,
    env: ConfigurationReader.Environment,
    fileExists: string -> bool,
    docker: nat -> DockerRun)
    returns (commands: seq<DockerCommand>, error: Option<LoadError>)
    ensures ConfigurationReader.GetEnvironmentName(env, file).Err? ==>
      commands == [] && error == Some(Config(ConfigurationReader.GetEnvironmentName(env, file).error))
    ensures ConfigurationReader.GetEnvironmentName(env, file).Ok? && ConfigurationReader.GetDataImagePath(file).Err? ==>
      commands == [] && error == Some(Config(ConfigurationReader.GetDataImagePath(file).error))
    ensures ConfigurationReader.GetEnvironmentName(env, file).Ok? && ConfigurationReader.GetDataImagePath(file).Ok? ==>
      var name := ImageName(ConfigurationReader.GetEnvironmentName(env, file).value);
      var tar := TarPath(ConfigurationReader.GetDataImagePath(file).value, ConfigurationReader.GetEnvironmentName(env, file).value);
      && (!fileExists(tar) ==> commands == [] && error == Some(TarNotFound(tar)))
      && (fileExists(tar) ==>
            && commands != [] && commands <= SuccessfulCommands(tar, ImageIdIn(docker(0).stdout, name), ImageIdIn(docker(3).stdout, name))
            && (error.None? <==>
                  commands == SuccessfulCommands(tar, ImageIdIn(docker(0).stdout, name), ImageIdIn(docker(3).stdout, name))
                  && docker(|commands| - 1).exitCode == 0)
            && (error.Some? ==> error.value.DockerFailed? || error.value.ImageNotFoundAfterLoad?)
            && (error.Some? && error.value.DockerFailed? ==>
                  error.value == DockerFailed(commands[|commands| - 1].Args(), docker(|commands| - 1).exitCode)
                  && docker(|commands| - 1).exitCode != 0)
            && (error.Some? && error.value.ImageNotFoundAfterLoad? ==>
                  |commands| == 3 && error.value.imageName == name && !ContainsIgnoreCase(Lines(docker(2).stdout), name)))
      && (error.None? ==>
            && ContainsIgnoreCase(Lines(docker(2).stdout), name)
            && commands == SuccessfulCommands(tar, ImageIdIn(docker(0).stdout, name), ImageIdIn(docker(3).stdout, name)))
    ensures |commands| > 0 ==> SucceededBefore(docker, |commands| - 1)
    ensures error.None? ==> commands != [] && docker(|commands| - 1).exitCode == 0
  {
    var environmentName := ConfigurationReader.GetEnvironmentName(env, file);
    if environmentName.Err? {
      return [], Some(Config(environmentName.error));
    }
    var dataImagePath := ConfigurationReader.GetDataImagePath(file);
    if dataImagePath.Err? {
      return [], Some(Config(dataImagePath.error));
    }
    var imageName := ImageName(environmentName.value);
    var tarPath := TarPath(dataImagePath.value, environmentName.value);
    if !fileExists(tarPath) {
      return [], Some(TarNotFound(tarPath));
    }
    commands, error := LoadAndReplaceImage(tarPath, imageName, docker);
  }
}
