/** Swapping the model file on the edge device, with a backup and a rollback. */
module ModelManager {
  import opened Prelude
  import opened Wire
  import opened Receiver
  import opened ReceiverSafety

  /** Whether the inference engine can load a file with these contents. */
  type Loadable = Bytes -> bool

  /** The two model files on disk, what inference has loaded, and whether it is paused. */
  datatype Device = Device(current: Option<Bytes>, backup: Option<Bytes>, loaded: Bytes, paused: bool)

  /** A step of the installation that may raise without having any effect. */
  datatype TryStep = BackUpCurrent | MoveNew | Reload | NotifySuccess

  function Rollback(loadable: Loadable, d: Device): Device {
    if d.backup.None? then d
    else
      var restored := d.(current := d.backup);
      if loadable(d.backup.value) then restored.(loaded := d.backup.value) else restored
  }

  /** install_new_model, with at most one step that fails of its own accord. */
  function Install(loadable: Loadable, d: Device, file: Bytes, failing: Option<TryStep>): Device {
    var backedUp := if d.current.Some? && failing != Some(BackUpCurrent) then d.(backup := d.current) else d;
    var result :=
      if d.current.Some? && failing == Some(BackUpCurrent) then Rollback(loadable, d)
      else if failing == Some(MoveNew) then Rollback(loadable, backedUp)
      else if failing == Some(Reload) || !loadable(file) then Rollback(loadable, backedUp.(current := Some(file)))
      else if failing == Some(NotifySuccess)
      then Rollback(loadable, backedUp.(current := Some(file), loaded := file))
      else backedUp.(current := Some(file), loaded := file);
    result.(paused := false)
  }

  // As it runs

  class CrowdCounter {
    const loadable: Loadable
    var model: Bytes
    var paused: bool

    constructor (loadable: Loadable, model: Bytes)
      ensures this.loadable == loadable && this.model == model && !paused
    {
      this.loadable, this.model, paused := loadable, model, false;
    }

    method Pause()
      modifies this`paused
      ensures paused
    {
      paused := true;
    }

    method Resume()
      modifies this`paused
      ensures !paused
    {
      paused := false;
    }

    /** Raises, and keeps the old model, if the file does not load. */
    method ReloadModel(file: Bytes) returns (raised: bool)
      modifies this`model
      ensures raised <==> !loadable(file)
      ensures model == if raised then old(model) else file
    {
      raised := !loadable(file);
      if !raised {
        model := file;
      }
    }
  }

  class Manager {
    const counter: CrowdCounter
    var currentFile: Option<Bytes>
    var backupFile: Option<Bytes>

    constructor (counter: CrowdCounter, currentFile: Option<Bytes>, backupFile: Option<Bytes>)
      ensures this.counter == counter && this.currentFile == currentFile && this.backupFile == backupFile
    {
      this.counter, this.currentFile, this.backupFile := counter, currentFile, backupFile;
    }

    function Current(): Device
      reads this, counter
    {
      Device(currentFile, backupFile, counter.model, counter.paused)
    }

    /** The body of the try block; raises at the failing step or if the new file does not load. */
    method TryInstall(file: Bytes, failing: Option<TryStep>) returns (raised: bool)
      modifies this, counter
      ensures counter.paused == old(counter.paused)
      ensures var d := old(Current());
              var backedUp := if d.current.Some? && failing != Some(BackUpCurrent) then d.(backup := d.current) else d;
              if d.current.Some? && failing == Some(BackUpCurrent) then raised && Current() == d
              else if failing == Some(MoveNew) then raised && Current() == backedUp
              else if failing == Some(Reload) || !counter.loadable(file)
              then raised && Current() == backedUp.(current := Some(file))
              else (raised <==> failing == Some(NotifySuccess))
                   && Current() == backedUp.(current := Some(file), loaded := file)
    {
      if currentFile.Some? {
        if failing == Some(BackUpCurrent) { return true; }
        backupFile := currentFile;
      }
      if failing == Some(MoveNew) { return true; }
      currentFile := Some(file);
      if failing == Some(Reload) { return true; }
      raised := counter.ReloadModel(file);
      if raised { return; }
      raised := failing == Some(NotifySuccess);
    }

    method InstallNewModel(file: Bytes, failing: Option<TryStep>)
      modifies this, counter
      ensures Current() == Install(counter.loadable, old(Current()), file, failing)
    {
      counter.Pause();
      var raised := TryInstall(file, failing);
      if raised {
        RollBack();
      }
      counter.Resume();
    }

    method RollBack()
      modifies this, counter
      ensures Current() == Rollback(counter.loadable, old(Current()))
    {
      if backupFile.None? { return; }
      currentFile := backupFile;
      var raised := counter.ReloadModel(backupFile.value);
    }
  }

  // What installing keeps

  /** The current file loads and is the one that is loaded. */
  ghost predicate InAgreement(loadable: Loadable, d: Device) {
    d.current == Some(d.loaded) && loadable(d.loaded)
  }

  ghost predicate BackupUsable(loadable: Loadable, d: Device) {
    d.backup.None? || loadable(d.backup.value)
  }

  /** Without faults, the new file is in use if it loads and the previous one otherwise. */
  lemma InstallUsesNewOrPrevious(loadable: Loadable, d: Device, file: Bytes)
    requires InAgreement(loadable, d)
    ensures var d' := Install(loadable, d, file, None);
            && InAgreement(loadable, d') && !d'.paused
            && d'.loaded == (if loadable(file) then file else d.loaded)
            && d'.backup == Some(d.loaded)
  {
  }

  /**
   If one step raises of its own accord, the result still agrees, exactly when the step was not the backup
   copy over an older backup that does not load. After a failed backup copy it is that older backup that is used.
   */
  lemma InstallUnderFault(loadable: Loadable, d: Device, file: Bytes, step: TryStep)
    requires InAgreement(loadable, d)
    ensures var d' := Install(loadable, d, file, Some(step));
            && !d'.paused
            && (InAgreement(loadable, d') <==> step != BackUpCurrent || BackupUsable(loadable, d))
            && (step != BackUpCurrent ==> d'.loaded == d.loaded && d'.backup == Some(d.loaded))
            && (step == BackUpCurrent && BackupUsable(loadable, d) ==> d'.loaded == d.backup.GetOr(d.loaded))
  {
  }

  /**
   A device without a current file, as before its first install. It ends up with a file that loads and is in use
   exactly when the new file gets that far (a failing backup copy is never tried), or there is a backup that
   loads to fall back on, or with no backup at all when the file stays in place and is what runs.
   */
  lemma FirstInstall(loadable: Loadable, d: Device, file: Bytes, failing: Option<TryStep>)
    requires d.current.None?
    ensures var d' := Install(loadable, d, file, failing);
            var installed := loadable(file) && (failing.None? || failing.value == BackUpCurrent);
            && !d'.paused && d'.backup == d.backup
            && (installed ==> d'.current == Some(file) && d'.loaded == file)
            && (!installed && d.backup.Some? ==>
                  d'.current == d.backup && (loadable(d.backup.value) ==> d'.loaded == d.backup.value))
            && (InAgreement(loadable, d')
                <==> || installed
                     || (d.backup.Some? && loadable(d.backup.value))
                     || (d.backup.None? && loadable(file)
                         && (failing == Some(NotifySuccess) || (failing == Some(Reload) && file == d.loaded))))
  {
  }

  datatype Installation = Installation(file: Bytes, failing: Option<TryStep>)

  function InstallAll(loadable: Loadable, d: Device, installations: seq<Installation>): Device
    decreases |installations|
  {
    if installations == [] then d
    else InstallAll(loadable, Install(loadable, d, installations[0].file, installations[0].failing), installations[1..])
  }

  /** Any run of installs, with at most one fault each, ends in agreement and unpaused. */
  lemma {:induction false} AgreementOverRuns(loadable: Loadable, d: Device, installations: seq<Installation>)
    requires InAgreement(loadable, d) && BackupUsable(loadable, d) && !d.paused
    ensures var d' := InstallAll(loadable, d, installations);
            InAgreement(loadable, d') && BackupUsable(loadable, d') && !d'.paused
    decreases |installations|
  {
    if installations != [] {
      match installations[0].failing {
        case None => InstallUsesNewOrPrevious(loadable, d, installations[0].file);
        case Some(step) => InstallUnderFault(loadable, d, installations[0].file, step);
      }
      AgreementOverRuns(loadable, Install(loadable, d, installations[0].file, installations[0].failing), installations[1..]);
    }
  }

  /** The last file of a list that loads, or the default. */
  function LastLoadable(loadable: Loadable, default: Bytes, files: seq<Bytes>): Bytes {
    if files == [] then default
    else if loadable(files[|files| - 1]) then files[|files| - 1]
    else LastLoadable(loadable, default, files[..|files| - 1])
  }

  function InstallFiles(loadable: Loadable, d: Device, files: seq<Bytes>): Device {
    if files == [] then d
    else Install(loadable, InstallFiles(loadable, d, files[..|files| - 1]), files[|files| - 1], None)
  }

  /** After any run of faultless installs the newest file that loads is in use. */
  lemma {:induction false} NewestLoadableIsUsed(loadable: Loadable, d: Device, files: seq<Bytes>)
    requires InAgreement(loadable, d)
    ensures var d' := InstallFiles(loadable, d, files);
            InAgreement(loadable, d') && d'.loaded == LastLoadable(loadable, d.loaded, files)
  {
    if files != [] {
      NewestLoadableIsUsed(loadable, d, files[..|files| - 1]);
      InstallUsesNewOrPrevious(loadable, InstallFiles(loadable, d, files[..|files| - 1]), files[|files| - 1]);
    }
  }

  // From the network to inference

  function FilesHandedOver(events: seq<Event>): seq<Bytes> {
    if events == [] then []
    else FilesHandedOver(events[..|events| - 1])
         + if events[|events| - 1].HandOver? then [events[|events| - 1].file] else []
  }

  lemma {:induction false} FilesAppend(a: seq<Event>, b: seq<Event>)
    ensures FilesHandedOver(a + b) == FilesHandedOver(a) + FilesHandedOver(b)
  {
    if b == [] {
      assert a + b == a;
    } else {
      assert (a + b)[..|a + b| - 1] == a + b[..|b| - 1];
      FilesAppend(a, b[..|b| - 1]);
    }
  }

  lemma {:induction false} HandedOverMember(events: seq<Event>, file: Bytes)
    ensures file in FilesHandedOver(events) <==> HandOver(file) in events
  {
    if events != [] {
      HandedOverMember(events[..|events| - 1], file);
      assert events == events[..|events| - 1] + [events[|events| - 1]];
    }
  }

  ghost predicate OfferedOrCollides(sha: HashFunction, file: Bytes, offered: set<Bytes>) {
    file in offered || exists other :: other in offered && other != file && sha(other) == sha(file)
  }

  lemma {:induction false} AllHandedOverWereOffered(sha: HashFunction, decode: Bytes -> MetaJson, payloads: seq<Bytes>, offered: set<Bytes>)
    requires OnlyOffers(sha, decode, payloads, offered)
    ensures forall file :: HandOver(file) in OnMessages(sha, decode, EMPTY, payloads).events ==> OfferedOrCollides(sha, file, offered)
  {
    if payloads != [] {
      var fewer, last := payloads[..|payloads| - 1], payloads[|payloads| - 1];
      AllHandedOverWereOffered(sha, decode, fewer, offered);
      assert payloads == fewer + [last];
      OneMoreMessage(sha, decode, EMPTY, fewer, last);
      var before := OnMessages(sha, decode, EMPTY, fewer);
      forall file | HandOver(file) in OnMessages(sha, decode, EMPTY, payloads).events
        ensures OfferedOrCollides(sha, file, offered)
      {
        if HandOver(file) !in before.events {
          HandedOverWasOffered(sha, decode, fewer, last, file, offered);
        }
      }
    }
  }

  lemma {:induction false} LastLoadableIsOneOf(loadable: Loadable, default: Bytes, files: seq<Bytes>)
    ensures var f := LastLoadable(loadable, default, files); f == default || (f in files && loadable(f))
  {
    if files != [] && !loadable(files[|files| - 1]) {
      LastLoadableIsOneOf(loadable, default, files[..|files| - 1]);
    }
  }

  /**
   Whatever messages reach the edge device, inference runs a model that loads, and it is the initial one
   or one of the files the metas offered, unless two different byte strings with the same hash exist.
   */
  lemma RunningModelWasOffered(sha: HashFunction, decode: Bytes -> MetaJson, loadable: Loadable, d: Device,
                               payloads: seq<Bytes>, offered: set<Bytes>)
    requires InAgreement(loadable, d) && OnlyOffers(sha, decode, payloads, offered)
    ensures var files := FilesHandedOver(OnMessages(sha, decode, EMPTY, payloads).events);
            var d' := InstallFiles(loadable, d, files);
            InAgreement(loadable, d') && (d'.loaded == d.loaded || OfferedOrCollides(sha, d'.loaded, offered))
  {
    var events := OnMessages(sha, decode, EMPTY, payloads).events;
    NewestLoadableIsUsed(loadable, d, FilesHandedOver(events));
    LastLoadableIsOneOf(loadable, d.loaded, FilesHandedOver(events));
    HandedOverMember(events, LastLoadable(loadable, d.loaded, FilesHandedOver(events)));
    AllHandedOverWereOffered(sha, decode, payloads, offered);
  }
}
