/** The application object: the profile collection with the current selection, the chosen
    folder and position, the status label, and the operations the buttons trigger.

    Widgets become fields: `selected` is the profile selector's text, `folder` the folder
    entry, `position` the position selector, `status` the status label. Dialog answers,
    the directory listing and everything Pillow does are parameters. */
module App {
  import opened Outcomes
  import opened Geometry
  import opened FileNames
  import opened Status
  import opened Profiles
  import opened Batch

  /** How a profile operation ended: refused before any dialog, file dialog cancelled,
      exception out of ask_params, or profile stored. */
  datatype DialogOutcome = Rejected | Cancelled | Raised(fault: Fault) | Saved

  /** What the preview canvas shows after a refresh. */
  datatype Preview = Cleared | Shown(src: string, placed: Placed) | Failed(src: string)

  /** new_profile accepts a name only when one was typed and it is not taken. */
  predicate NameAccepted(name: Option<string>, profiles: map<string, Profile>) {
    name.Some? && name.value != "" && name.value !in profiles
  }

  class WatermarkApp {
    var profiles: map<string, Profile>
    var selected: string
    var currentProfile: Option<Profile>
    var folder: string
    var position: Position
    var status: string
    var lastOutputDir: Option<string>
    /** Every text set on the status label since start-up, in order. */
    ghost var statusTrace: seq<string>

    /** The selector shows a known profile, which is then the current one, or is empty with
        no current profile. Because the selector only offers the collection's names, this
        holds throughout, and so deleting never meets a missing key. */
    ghost predicate Valid()
      reads this`profiles, this`selected, this`currentProfile
    {
      || (selected in profiles && currentProfile == Some(profiles[selected]))
      || (selected == "" && currentProfile == None)
    }

    /** Start-up with the collection read from the profile file (empty when absent or unreadable). */
    constructor (loaded: map<string, Profile>)
      ensures Valid()
      ensures profiles == loaded && selected == "" && currentProfile == None
      ensures folder == "" && position == BottomRight && status == Waiting
      ensures lastOutputDir == None && statusTrace == []
    {
      profiles := loaded;
      selected := "";
      currentProfile := None;
      folder := "";
      position := BottomRight;
      status := Waiting;
      lastOutputDir := None;
      statusTrace := [];
    }

    /** load_profile: the selected name becomes the current profile only when it is known. */
    method LoadProfile()
      modifies this`currentProfile
      ensures old(Valid()) || selected in profiles ==> Valid()
      ensures selected in profiles ==> currentProfile == Some(profiles[selected])
      ensures selected !in profiles ==> currentProfile == old(currentProfile)
    {
      if selected in profiles {
        currentProfile := Some(profiles[selected]);
      }
    }

    /** Picking a name in the profile selector, which then calls load_profile. */
    method Select(name: string)
      requires Valid() && name in profiles
      modifies this`selected, this`currentProfile
      ensures Valid()
      ensures selected == name && currentProfile == Some(profiles[name])
    {
      selected := name;
      LoadProfile();
    }

    /** new_profile: an empty or taken name changes nothing; otherwise the dialogs run, and a
        complete answer adds exactly that key, selects it and makes it current. */
    method NewProfile(name: Option<string>, answers: DialogAnswers) returns (outcome: DialogOutcome)
      requires Valid() && WithinDialogBounds(answers)
      modifies this`profiles, this`selected, this`currentProfile
      ensures Valid()
      ensures outcome == Rejected <==> !NameAccepted(name, old(profiles))
      ensures outcome == Cancelled <==> NameAccepted(name, old(profiles)) && answers.wmFile == ""
      ensures outcome.Raised? <==> NameAccepted(name, old(profiles)) && answers.wmFile != "" && answers.scale.None?
      ensures outcome.Raised? ==> outcome.fault == TypeError
      ensures outcome != Saved ==>
        profiles == old(profiles) && selected == old(selected) && currentProfile == old(currentProfile)
      ensures outcome == Saved ==>
        && AskParams(answers).Ok? && AskParams(answers).value.Some?
        && profiles == old(profiles)[name.value := AskParams(answers).value.value]
        && profiles.Keys == old(profiles).Keys + {name.value}
        && selected == name.value
        && currentProfile == Some(AskParams(answers).value.value)
    {
      if !NameAccepted(name, profiles) {
        return Rejected;
      }
      match AskParams(answers)
      case Err(f) =>
        return Raised(f);
      case Ok(None) =>
        return Cancelled;
      case Ok(Some(p)) =>
        profiles := profiles[name.value := p];
        selected := name.value;
        LoadProfile();
        return Saved;
    }

    /** edit_profile: acts only when the selected name is known; a complete answer replaces
        that profile's value, keeps the key set, and makes the new value current. */
    method EditProfile(answers: DialogAnswers) returns (outcome: DialogOutcome)
      requires Valid() && WithinDialogBounds(answers)
      modifies this`profiles, this`currentProfile
      ensures Valid()
      ensures selected == old(selected)
      ensures outcome == Rejected <==> selected !in old(profiles)
      ensures outcome == Cancelled <==> selected in old(profiles) && answers.wmFile == ""
      ensures outcome.Raised? <==> selected in old(profiles) && answers.wmFile != "" && answers.scale.None?
      ensures outcome.Raised? ==> outcome.fault == TypeError
      ensures outcome != Saved ==> profiles == old(profiles) && currentProfile == old(currentProfile)
      ensures outcome == Saved ==>
        && AskParams(answers).Ok? && AskParams(answers).value.Some?
        && profiles == old(profiles)[selected := AskParams(answers).value.value]
        && profiles.Keys == old(profiles).Keys
        && currentProfile == Some(AskParams(answers).value.value)
    {
      if selected !in profiles {
        return Rejected;
      }
      match AskParams(answers)
      case Err(f) =>
        return Raised(f);
      case Ok(None) =>
        return Cancelled;
      case Ok(Some(p)) =>
        profiles := profiles[selected := p];
        LoadProfile();
        return Saved;
    }

    /** delete_profile: with a selected name and a confirmation, removes exactly that key,
        clears the selector and leaves no current profile. */
    method DeleteProfile(confirmed: bool) returns (deleted: bool)
      requires Valid()
      modifies this`profiles, this`selected, this`currentProfile
      ensures Valid()
      ensures deleted <==> old(selected) != "" && confirmed
      ensures deleted ==>
        && old(selected) in old(profiles)
        && profiles == old(profiles) - {old(selected)}
        && selected == "" && currentProfile == None
      ensures !deleted ==>
        profiles == old(profiles) && selected == old(selected) && currentProfile == old(currentProfile)
    {
      deleted := selected != "" && confirmed;
      if deleted {
        profiles := profiles - {selected};
        selected := "";
        currentProfile := None;
      }
    }

    /** update_preview: with a folder, a current profile and an existing folder, the first
        candidate of the listing is composited with `_apply_single` and shown; no candidate
        clears the canvas, and any exception shows an error instead. `loadWm` opens and decodes
        the profile's watermark file (None when that raises). */
    method UpdatePreview(isDir: bool, listing: seq<string>, loadWm: string -> Option<Size>,
                         load: string -> Option<Size>, render: string -> bool) returns (pv: Preview)
      ensures !(folder != "" && currentProfile.Some? && isDir) ==> pv == Cleared
      ensures folder != "" && currentProfile.Some? && isDir ==> (pv == Cleared <==> Candidates(listing) == [])
      ensures pv != Cleared ==> pv.src == Join(folder, Candidates(listing)[0])
      ensures pv.Shown? <==>
        && pv != Cleared
        && load(pv.src).Some? && loadWm(currentProfile.value.wmFile).Some?
        && SinglePlacement(load(pv.src).value, loadWm(currentProfile.value.wmFile).value, currentProfile.value.scalePct,
                           currentProfile.value.margin, Label(position)).Ok?
        && render(pv.src)
      ensures pv.Shown? ==>
        pv.placed == SinglePlacement(load(pv.src).value, loadWm(currentProfile.value.wmFile).value, currentProfile.value.scalePct,
                                     currentProfile.value.margin, Label(position)).value
    {
      if !(folder != "" && currentProfile.Some? && isDir) {
        return Cleared;
      }
      var first := FirstCandidate(listing);
      if first.None? {
        return Cleared;
      }
      var src := Join(folder, first.value);
      var cfg := currentProfile.value;
      var img := load(src);
      var wm := loadWm(cfg.wmFile);
      if img.None? || wm.None? {
        return Failed(src);
      }
      var placed := SinglePlacement(img.value, wm.value, cfg.scalePct, cfg.margin, Label(position));
      if placed.Err? || !render(src) {
        return Failed(src);
      }
      return Shown(src, placed.value);
    }

    /** run_apply: the output folder is recorded; a watermark that cannot be opened ends the
        run before the loop; otherwise every file is processed in turn, failures are skipped,
        each success is written and shown as count/total, and the final text is set. */
    method RunApply(folder: string, cfg: Profile, position: string, files: seq<string>,
                    loadWm: string -> Option<Size>,
                    load: string -> Option<Size>, render: string -> bool)
        returns (finished: bool, count: nat, written: seq<string>)
      modifies this`status, this`statusTrace, this`lastOutputDir
      ensures lastOutputDir == Some(OutputDir(folder))
      ensures finished <==> loadWm(cfg.wmFile).Some?
      ensures !finished ==>
        count == 0 && written == [] && status == old(status) && statusTrace == old(statusTrace)
      ensures finished ==>
        var job := Job(folder, cfg, position, loadWm(cfg.wmFile).value, load, render);
        && count == |Succeeded(job, files)|
        && written == Outputs(OutputDir(folder), Succeeded(job, files))
        && status == Finished(count, |files|)
        && statusTrace == old(statusTrace) + Progression(count, |files|) + [Finished(count, |files|)]
    {
      var outDir := OutputDir(folder);
      lastOutputDir := Some(outDir);
      var wm := loadWm(cfg.wmFile);
      if wm.None? {
        return false, 0, [];
      }
      var job := Job(folder, cfg, position, wm.value, load, render);
      count, written := ProcessAll(job, files);
      status := Finished(count, |files|);
      statusTrace := statusTrace + [status];
      finished := true;
    }

    /** The `for` loop of run_apply over the listed files. */
    method ProcessAll(job: Job, files: seq<string>) returns (count: nat, written: seq<string>)
      modifies this`status, this`statusTrace
      ensures count == |Succeeded(job, files)|
      ensures written == Outputs(OutputDir(job.folder), Succeeded(job, files))
      ensures statusTrace == old(statusTrace) + Progression(count, |files|)
      ensures count > 0 ==> status == Progress(count, |files|)
      ensures count == 0 ==> status == old(status)
    {
      count, written := 0, [];
      for i := 0 to |files|
        invariant count == |Succeeded(job, files[..i])|
        invariant written == Outputs(OutputDir(job.folder), Succeeded(job, files[..i]))
        invariant statusTrace == old(statusTrace) + Progression(count, |files|)
        invariant count > 0 ==> status == Progress(count, |files|)
        invariant count == 0 ==> status == old(status)
      {
        assert files[..i + 1] == files[..i] + [files[i]];
        count, written := TryFile(job, files[..i], files[i], |files|, old(statusTrace), count, written);
      }
      assert files[..|files|] == files;
    }

    /** The `try` block for one file: open and decode it, compute the placement inline, let
        Pillow resize, paste, composite and save; on success count it and show the new count.
        An exception skips the rest of the block and changes nothing. */
    method TryFile(job: Job, ghost done: seq<string>, f: string, total: nat, ghost start: seq<string>,
                   count: nat, written: seq<string>)
        returns (count': nat, written': seq<string>)
      requires count == |Succeeded(job, done)|
      requires written == Outputs(OutputDir(job.folder), Succeeded(job, done))
      requires statusTrace == start + Progression(count, total)
      modifies this`status, this`statusTrace
      ensures count' == |Succeeded(job, done + [f])|
      ensures written' == Outputs(OutputDir(job.folder), Succeeded(job, done + [f]))
      ensures statusTrace == start + Progression(count', total)
      ensures FileSucceeds(job, f) ==> status == Progress(count', total)
      ensures !FileSucceeds(job, f) ==> status == old(status)
    {
      RunStep(job, done, f, OutputDir(job.folder));
      count', written' := count, written;
      var src := Join(job.folder, f);
      var img := job.load(src);
      if img.None? {
        return;
      }
      var placement := BatchPlacement(img.value, job.wm, job.cfg.scalePct, job.cfg.margin, job.position);
      if placement.Ok? && job.render(src) {
        written' := written + [Join(OutputDir(job.folder), OutputName(f))];
        count' := count + 1;
        status := Progress(count', total);
        statusTrace := statusTrace + [status];
        assert start + Progression(count, total) + [Progress(count', total)]
            == start + (Progression(count, total) + [Progress(count', total)]);
      }
    }

    /** start: without a folder, a current profile and an existing folder only a warning is
        shown; otherwise the candidates of the listing are counted, the label reads 0/total,
        and the run over them is made (in the source, on a worker thread). */
    method Start(isDir: bool, listing: seq<string>, loadWm: string -> Option<Size>,
                 load: string -> Option<Size>, render: string -> bool)
        returns (started: bool, count: nat, written: seq<string>)
      modifies this`status, this`statusTrace, this`lastOutputDir
      ensures started <==> old(folder) != "" && old(currentProfile).Some? && isDir
      ensures !started ==>
        && count == 0 && written == []
        && status == old(status) && statusTrace == old(statusTrace) && lastOutputDir == old(lastOutputDir)
      ensures started ==>
        var files := Candidates(listing);
        && lastOutputDir == Some(OutputDir(folder))
        && (loadWm(currentProfile.value.wmFile).None? ==>
              && count == 0 && written == [] && status == Progress(0, |files|)
              && statusTrace == old(statusTrace) + [Progress(0, |files|)])
        && (loadWm(currentProfile.value.wmFile).Some? ==>
              var job := Job(folder, currentProfile.value, Label(position), loadWm(currentProfile.value.wmFile).value,
                             load, render);
              && count == |Succeeded(job, files)|
              && written == Outputs(OutputDir(folder), Succeeded(job, files))
              && status == Finished(count, |files|)
              && statusTrace == old(statusTrace) + [Progress(0, |files|)]
                                + Progression(count, |files|) + [Finished(count, |files|)])
    {
      if !(folder != "" && currentProfile.Some? && isDir) {
        return false, 0, [];
      }
      var files := Candidates(listing);
      status := Progress(0, |files|);
      statusTrace := statusTrace + [status];
      var finished;
      finished, count, written := RunApply(folder, currentProfile.value, Label(position), files, loadWm, load, render);
      started := true;
    }
  }
}
