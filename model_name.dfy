/** `separateModelName` of the command-line front end: a download target
    of the form `.../organization/model` is split into the directory that
    holds the models and the model's name `organization/model`. */
module ModelName {
  import opened Wrappers
  import opened GoStrings

  /** "path must have at least three levels of directories" */
  datatype SeparateError = TooFewLevels

  datatype Location = Location(dir: string, name: string)

  /** The `/`-separated levels of `path` after one trailing `/` is removed. */
  function Levels(path: string): (dirs: seq<string>)
    ensures |dirs| >= 1
  {
    Split(TrimSuffix(path, '/'), '/')
  }

  /** Fails exactly when the path, without one trailing `/`, has fewer than
      two separators (that is, fewer than three levels). */
  function SeparateModelName(path: string): (r: Result<Location, SeparateError>)
    ensures r.Failure? <==> Count(TrimSuffix(path, '/'), '/') < 2
    ensures r.Failure? ==> r.error == TooFewLevels
  {
    var dirs := Levels(path);
    if |dirs| < 3 then Failure(TooFewLevels)
    else
      var lastDir := dirs[|dirs| - 1];
      var secondLastDir := dirs[|dirs| - 2];
      Success(Location(Join(dirs[..|dirs| - 2], '/'), JoinPath(secondLastDir, lastDir)))
  }

  /** Splitting at a separator splits the two sides independently. */
  lemma {:induction false} SplitAppend(x: string, y: string, sep: char)
    ensures Split(x + [sep] + y, sep) == Split(x, sep) + Split(y, sep)
    decreases |x|
  {
    var s := x + [sep] + y;
    if x == [] {
      assert s[1..] == y;
    } else {
      assert s[1..] == x[1..] + [sep] + y;
      SplitAppend(x[1..], y, sep);
    }
  }

  /** The value `SeparateModelName` computes on success, named by its parts. */
  lemma SeparateValue(path: string)
    requires SeparateModelName(path).Success?
    ensures var dirs := Levels(path);
            var n := |dirs|;
            && n >= 3
            && SeparateModelName(path).value
               == Location(Join(dirs[..n - 2], '/'), JoinPath(dirs[n - 2], dirs[n - 1]))
  {
  }

  /** Joining keeps the last two pieces after the rest. */
  lemma JoinLastTwo(dirs: seq<string>, sep: char)
    requires |dirs| >= 3
    ensures var n := |dirs|;
            Join(dirs, sep) == Join(dirs[..n - 2], sep) + [sep] + dirs[n - 2] + [sep] + dirs[n - 1]
  {
    var n := |dirs|;
    var front, a, b := dirs[..n - 2], dirs[n - 2], dirs[n - 1];
    assert dirs == front + [a, b];
    JoinAppend(front, [a, b], sep);
    assert Join([a, b], sep) == a + [sep] + b;
  }

  /** On success the directory is everything of the trimmed path before its
      second-to-last `/`, and the name joins the two levels after it. */
  lemma SeparateDecomposes(path: string)
    requires SeparateModelName(path).Success?
    ensures var dirs := Levels(path);
            var loc := SeparateModelName(path).value;
            && TrimSuffix(path, '/') == loc.dir + "/" + dirs[|dirs| - 2] + "/" + dirs[|dirs| - 1]
            && loc.dir == Join(dirs[..|dirs| - 2], '/')
            && loc.name == JoinPath(dirs[|dirs| - 2], dirs[|dirs| - 1])
  {
    SeparateValue(path);
    JoinLastTwo(Levels(path), '/');
  }

  /** Splitting a directory followed by two slash-free levels. */
  lemma SplitComposed(dir: string, org: string, model: string)
    requires '/' !in org && '/' !in model
    ensures Split(dir + "/" + org + "/" + model, '/') == Split(dir, '/') + [org, model]
  {
    var left := dir + "/" + org;
    assert dir + "/" + org + "/" + model == left + ['/'] + model;
    assert left == dir + ['/'] + org;
    SplitAppend(left, model, '/');
    SplitAppend(dir, org, '/');
    SplitPlain(org, '/');
    SplitPlain(model, '/');
    var front := Split(dir, '/');
    assert (front + [org]) + [model] == front + [org, model];
  }

  /** The levels of a composed path: those of the directory, then the two. */
  lemma LevelsComposed(dir: string, org: string, model: string, trailing: bool)
    requires '/' !in org && '/' !in model
    requires trailing || model != ""
    ensures Levels(dir + "/" + org + "/" + model + (if trailing then "/" else ""))
            == Split(dir, '/') + [org, model]
  {
    var trimmed := dir + "/" + org + "/" + model;
    var path := trimmed + (if trailing then "/" else "");
    if trailing {
      assert path[..|path| - 1] == trimmed;
    } else {
      assert trimmed[|trimmed| - 1] == model[|model| - 1];
    }
    assert TrimSuffix(path, '/') == trimmed;
    SplitComposed(dir, org, model);
  }

  /** The converse: composing a directory and two slash-free levels (with or
      without a trailing `/`) and separating again gives back that directory
      and `filepath.Join` of the two levels. */
  lemma SeparateComposed(dir: string, org: string, model: string, trailing: bool)
    requires '/' !in org && '/' !in model
    requires trailing || model != ""
    ensures SeparateModelName(dir + "/" + org + "/" + model + (if trailing then "/" else ""))
            == Success(Location(dir, JoinPath(org, model)))
  {
    var path := dir + "/" + org + "/" + model + (if trailing then "/" else "");
    LevelsComposed(dir, org, model, trailing);
    var dirs := Levels(path);
    var n := |dirs|;
    assert dirs[..n - 2] == Split(dir, '/') && dirs[n - 2] == org && dirs[n - 1] == model;
  }

  /** Round trip: when the last two levels are kept as they are by
      `filepath.Join` (non-empty, neither "." nor ".."), directory, `/` and
      name give back the path without its trailing `/`. */
  lemma SeparateRoundTrip(path: string)
    requires SeparateModelName(path).Success?
    requires var dirs := Levels(path);
             Plain(dirs[|dirs| - 2]) && Plain(dirs[|dirs| - 1])
    ensures var loc := SeparateModelName(path).value;
            loc.dir + "/" + loc.name == TrimSuffix(path, '/')
  {
    SeparateDecomposes(path);
  }

  /** A slash-free name cannot stand where two levels and the `/` between
      them stand. */
  lemma SlashFreeNotTwoLevels(dir: string, name: string, a: string, b: string)
    requires '/' !in name
    ensures dir + "/" + name != dir + "/" + a + "/" + b
  {
    var lhs, rhs := dir + "/" + name, dir + "/" + a + "/" + b;
    var k := |dir| + 1 + |a|;
    assert rhs[k] == '/';
    if |lhs| == |rhs| {
      assert lhs[k] == name[|a|];
    }
  }

  /** ...and when one of the last two levels is empty (a doubled `/`) the
      round trip cannot hold. */
  lemma SeparateRoundTripFails(path: string)
    requires SeparateModelName(path).Success?
    requires var dirs := Levels(path);
             dirs[|dirs| - 2] == "" || dirs[|dirs| - 1] == ""
    ensures var loc := SeparateModelName(path).value;
            loc.dir + "/" + loc.name != TrimSuffix(path, '/')
  {
    var dirs := Levels(path);
    var loc := SeparateModelName(path).value;
    SeparateDecomposes(path);
    SlashFreeNotTwoLevels(loc.dir, loc.name, dirs[|dirs| - 2], dirs[|dirs| - 1]);
  }

  lemma SeparateTooShortExample()
    ensures SeparateModelName("org/model/") == Failure(TooFewLevels)
  {
    assert TrimSuffix("org/model/", '/') == "org/model";
    assert Count("org/model", '/') == 1;
  }
}
