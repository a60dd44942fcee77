/** What a batch run over a folder computes, as functions of the list of candidate files.

    The run processes the files in order. A file whose processing raises is logged and
    skipped; every other file is written to the output folder under its output name, the
    success count goes up by one and the status label shows the new count. The Pillow work
    on each file is an oracle: `load` gives the dimensions of the decoded, re-oriented photo
    (None when opening or decoding raises) and `render` says whether resizing, pasting,
    compositing and saving go through. */
module Batch {
  import opened Outcomes
  import opened Geometry
  import opened FileNames
  import opened Status
  import opened Profiles

  /** Name of the output sub-folder. */
  const OutputFolder: string := "Avec WaterMark"

  function OutputDir(folder: string): string {
    Join(folder, OutputFolder)
  }

  /** The output folder lies inside the chosen folder and ends with `Avec WaterMark`. */
  lemma OutputDirShape(folder: string)
    ensures EndsWith(OutputDir(folder), OutputFolder)
    ensures |folder| <= |OutputDir(folder)| && OutputDir(folder)[..|folder|] == folder
  {
    JoinShape(folder, OutputFolder);
  }

  /** One run: the folder, the profile and position it was started with, the decoded
      watermark's dimensions, and the Pillow oracles. */
  datatype Job = Job(folder: string, cfg: Profile, position: string, wm: Size,
                     load: string -> Option<Size>, render: string -> bool)

  /** Whether processing file `f` runs to the end of the `try` block without raising: the
      photo opens, the inline placement raises none of its exceptions (`Placeable`, which
      holds exactly when `BatchPlacement` succeeds), and the Pillow steps go through. */
  predicate FileSucceeds(job: Job, f: string) {
    var src := Join(job.folder, f);
    match job.load(src)
    case None => false
    case Some(img) =>
      Placeable(job.wm, job.cfg.margin, job.position) && job.render(src)
  }

  /** The per-file outcome is the batch placement of the photo's decoded size: a file goes
      through exactly when it opens, `BatchPlacement` succeeds on it and the Pillow steps go
      through. */
  lemma FileSucceedsMeans(job: Job, f: string)
    ensures FileSucceeds(job, f) <==>
      && job.load(Join(job.folder, f)).Some?
      && BatchPlacement(job.load(Join(job.folder, f)).value, job.wm, job.cfg.scalePct,
                        job.cfg.margin, job.position).Ok?
      && job.render(Join(job.folder, f))
  {
  }

  function Last(s: seq<string>): string
    requires s != []
  {
    s[|s| - 1]
  }

  function Init(s: seq<string>): seq<string>
    requires s != []
  {
    s[..|s| - 1]
  }

  /** The files processed without an exception, in processing order. */
  function Succeeded(job: Job, files: seq<string>): (s: seq<string>)
    ensures |s| <= |files|
  {
    if files == [] then []
    else Succeeded(job, Init(files)) + (if FileSucceeds(job, Last(files)) then [Last(files)] else [])
  }

  /** The files whose processing raised, in processing order. */
  function FailedFiles(job: Job, files: seq<string>): (s: seq<string>)
    ensures |s| <= |files|
  {
    if files == [] then []
    else FailedFiles(job, Init(files)) + (if FileSucceeds(job, Last(files)) then [] else [Last(files)])
  }

  /** The successes are exactly the files of the list that process without raising. */
  lemma {:induction false} SucceededMembers(job: Job, files: seq<string>, f: string)
    ensures f in Succeeded(job, files) <==> f in files && FileSucceeds(job, f)
  {
    if files != [] {
      SucceededMembers(job, Init(files), f);
      assert files == Init(files) + [Last(files)];
    }
  }

  /** Every file is either counted or failed: with K failing files out of N, N - K succeed. */
  lemma {:induction false} SuccessesPlusFailures(job: Job, files: seq<string>)
    ensures |Succeeded(job, files)| + |FailedFiles(job, files)| == |files|
  {
    if files != [] {
      SuccessesPlusFailures(job, Init(files));
    }
  }

  /** Failure isolation: what happens to the later files does not depend on how the
      earlier ones fared. */
  lemma {:induction false} SucceededAppend(job: Job, a: seq<string>, b: seq<string>)
    ensures Succeeded(job, a + b) == Succeeded(job, a) + Succeeded(job, b)
  {
    if b == [] {
      assert a + b == a;
    } else {
      assert Init(a + b) == a + Init(b);
      assert Last(a + b) == Last(b);
      SucceededAppend(job, a, Init(b));
    }
  }

  /** Without a margin, or with a watermark of width 0, every file raises and nothing is written. */
  lemma {:induction false} NothingWithoutMarginOrWidth(job: Job, files: seq<string>)
    requires job.cfg.margin.None? || job.wm.w == 0
    ensures Succeeded(job, files) == []
    ensures FailedFiles(job, files) == files
  {
    if files != [] {
      NothingWithoutMarginOrWidth(job, Init(files));
      assert files == Init(files) + [Last(files)];
    }
  }

  /** The status texts the loop sets after `n` successes, in order, out of `total`. */
  function Progression(n: nat, total: nat): (texts: seq<string>)
    ensures |texts| == n
  {
    if n == 0 then [] else Progression(n - 1, total) + [Progress(n, total)]
  }

  /** After the k-th success the label reads k/total: the texts count 1, 2, ... up to the
      number of successes. */
  lemma {:induction false} ProgressionCounts(n: nat, total: nat)
    ensures forall k :: 0 <= k < n ==> Progression(n, total)[k] == Progress(k + 1, total)
  {
    if n > 0 {
      ProgressionCounts(n - 1, total);
      assert forall k :: 0 <= k < n - 1 ==> Progression(n, total)[k] == Progression(n - 1, total)[k];
    }
  }

  /** One more file: how the successes, status texts and written paths grow. */
  lemma RunStep(job: Job, done: seq<string>, f: string, dir: string)
    ensures Succeeded(job, done + [f]) ==
      Succeeded(job, done) + (if FileSucceeds(job, f) then [f] else [])
    ensures Outputs(dir, Succeeded(job, done + [f])) ==
      Outputs(dir, Succeeded(job, done)) + (if FileSucceeds(job, f) then [Join(dir, OutputName(f))] else [])
  {
    assert Init(done + [f]) == done && Last(done + [f]) == f;
    var s := Succeeded(job, done);
    if FileSucceeds(job, f) {
      assert Succeeded(job, done + [f]) == s + [f];
      assert Init(s + [f]) == s && Last(s + [f]) == f;
      assert Outputs(dir, s + [f]) == Outputs(dir, s) + [Join(dir, OutputName(f))];
    } else {
      assert Succeeded(job, done + [f]) == s;
    }
  }

  /** The paths written for a list of processed files. */
  function Outputs(outDir: string, names: seq<string>): (p: seq<string>)
    ensures |p| == |names|
  {
    if names == [] then [] else Outputs(outDir, Init(names)) + [Join(outDir, OutputName(Last(names)))]
  }

  predicate Distinct(s: seq<string>) {
    forall i, j :: 0 <= i < j < |s| ==> s[i] != s[j]
  }

  /** The successes of a list of distinct names are distinct. */
  lemma {:induction false} SucceededDistinct(job: Job, files: seq<string>)
    requires Distinct(files)
    ensures Distinct(Succeeded(job, files))
  {
    if files != [] {
      var init, last := Init(files), Last(files);
      assert Distinct(init) by {
        assert forall i :: 0 <= i < |init| ==> init[i] == files[i];
      }
      SucceededDistinct(job, init);
      var s := Succeeded(job, init);
      if FileSucceeds(job, last) {
        assert last !in init by {
          assert forall i :: 0 <= i < |init| ==> init[i] == files[i];
        }
        forall i | 0 <= i < |s|
          ensures s[i] != last
        {
          SucceededMembers(job, init, s[i]);
        }
        assert Succeeded(job, files) == s + [last];
      }
    }
  }

  /** Distinct bare names are written to distinct paths. */
  lemma {:induction false} OutputsDistinct(dir: string, names: seq<string>)
    requires Distinct(names)
    requires forall f :: f in names ==> '/' !in f
    ensures Distinct(Outputs(dir, names))
  {
    if names != [] {
      var init := Init(names);
      assert names == init + [Last(names)];
      OutputsDistinct(dir, init);
      var o := Outputs(dir, init);
      forall k | 0 <= k < |init|
        ensures o[k] != Join(dir, OutputName(Last(names)))
      {
        OutputsAt(dir, init, k);
        NamesDifferAfterJoin(dir, init[k], Last(names));
      }
    }
  }

  /** A directory listing has distinct names, none holding a separator; then no two
      processed files of a run are written to the same path. */
  lemma DistinctOutputs(job: Job, files: seq<string>)
    requires Distinct(files)
    requires forall f :: f in files ==> '/' !in f
    ensures Distinct(Outputs(OutputDir(job.folder), Succeeded(job, files)))
  {
    SucceededDistinct(job, files);
    forall f | f in Succeeded(job, files)
      ensures '/' !in f
    {
      SucceededMembers(job, files, f);
    }
    OutputsDistinct(OutputDir(job.folder), Succeeded(job, files));
  }

  lemma {:induction false} OutputsAt(dir: string, names: seq<string>, k: nat)
    requires k < |names|
    ensures Outputs(dir, names)[k] == Join(dir, OutputName(names[k]))
  {
    if k < |names| - 1 {
      OutputsAt(dir, Init(names), k);
    }
  }

  lemma NamesDifferAfterJoin(dir: string, f: string, g: string)
    requires f != g && '/' !in f && '/' !in g
    ensures Join(dir, OutputName(f)) != Join(dir, OutputName(g))
  {
    OutputNameBare(f);
    OutputNameBare(g);
    if OutputName(f) != [] { assert OutputName(f)[0] in OutputName(f); }
    if OutputName(g) != [] { assert OutputName(g)[0] in OutputName(g); }
    if Join(dir, OutputName(f)) == Join(dir, OutputName(g)) {
      JoinInjective(dir, OutputName(f), OutputName(g));
      OutputNameInjective(f, g);
    }
  }
}
