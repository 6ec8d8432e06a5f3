/** Keeping a language server's copies of files in step with the disk. */
module DocumentSync {
  import opened Wrappers

  type Uri = string

  datatype Document = Document(version: nat, text: string, changedAt: nat)

  datatype Notification =
    | DidOpen(uri: Uri, version: nat, text: string)
    | DidChange(uri: Uri, version: nat, text: string)
    | DidSave(uri: Uri)
    | DidClose(uri: Uri)

  datatype Synced = Missing | Opened | Changed | Unchanged

  // ---- what a server makes of the notifications -----------------------------------------------------

  datatype Copy = Copy(version: nat, text: string)

  type Mirror = map<Uri, Copy>

  /**
    One notification. A document is opened once at version 1 and closed before it is opened again;
    only open documents change, each time to the next version.
   */
  function Receive(mirror: Mirror, n: Notification): Option<Mirror> {
    match n
    case DidOpen(uri, version, text) =>
      if uri in mirror || version != 1 then None else Some(mirror[uri := Copy(1, text)])
    case DidChange(uri, version, text) =>
      if uri !in mirror || version != mirror[uri].version + 1 then None else Some(mirror[uri := Copy(version, text)])
    case DidSave(uri) => if uri !in mirror then None else Some(mirror)
    case DidClose(uri) => if uri !in mirror then None else Some(mirror - {uri})
  }

  /** A whole log; nothing when some notification breaks the rules. */
  function Replay(log: seq<Notification>): Option<Mirror> {
    if log == [] then Some(map[])
    else
      match Replay(log[..|log| - 1])
      case None => None
      case Some(before) => Receive(before, log[|log| - 1])
  }

  lemma {:induction false} ReplayOneMore(log: seq<Notification>, n: Notification)
    requires Replay(log).Some?
    ensures Replay(log + [n]) == Receive(Replay(log).value, n)
  {
    assert (log + [n])[..|log|] == log;
  }

  lemma {:induction false} ReplayPrefix(log: seq<Notification>, k: nat)
    requires Replay(log).Some? && k <= |log|
    ensures Replay(log[..k]).Some?
  {
    if k == |log| {
      assert log[..k] == log;
    } else {
      ReplayPrefix(log[..|log| - 1], k);
      assert log[..|log| - 1][..k] == log[..k];
    }
  }

  function Opens(log: seq<Notification>, uri: Uri): nat {
    if log == [] then 0
    else
      var n := log[|log| - 1];
      Opens(log[..|log| - 1], uri) + if n.DidOpen? && n.uri == uri then 1 else 0
  }

  function Closes(log: seq<Notification>, uri: Uri): nat {
    if log == [] then 0
    else
      var n := log[|log| - 1];
      Closes(log[..|log| - 1], uri) + if n.DidClose? && n.uri == uri then 1 else 0
  }

  /** Changes since the document was last opened. */
  function ChangesSinceOpen(log: seq<Notification>, uri: Uri): nat {
    if log == [] then 0
    else
      var n := log[|log| - 1];
      if n.DidOpen? && n.uri == uri then 0
      else ChangesSinceOpen(log[..|log| - 1], uri) + if n.DidChange? && n.uri == uri then 1 else 0
  }

  lemma {:induction false} OpensLeadCloses(log: seq<Notification>, uri: Uri)
    requires Replay(log).Some?
    ensures var mirror := Replay(log).value;
            && Opens(log, uri) == Closes(log, uri) + (if uri in mirror then 1 else 0)
            && (uri in mirror ==> mirror[uri].version == 1 + ChangesSinceOpen(log, uri))
  {
    if log != [] {
      OpensLeadCloses(log[..|log| - 1], uri);
    }
  }

  // ---- the client's state after each operation ------------------------------------------------------------

  /** What the client believes the server has. */
  function CopiesOf(documents: map<Uri, Document>): Mirror {
    map uri | uri in documents :: Copy(documents[uri].version, documents[uri].text)
  }

  /** The open documents, whether every write so far has arrived, and the notifications that did. */
  datatype State = State(documents: map<Uri, Document>, publishes: nat, alive: bool, log: seq<Notification>)

  const START := State(map[], 0, true, [])

  /** One notification written; `arrives` says whether the pipe took it. */
  function Notified(st: State, n: Notification, arrives: bool): State {
    if arrives then st.(log := st.log + [n]) else st.(alive := false)
  }

  function Stored(st: State, uri: Uri, version: nat, text: string): State {
    st.(documents := st.documents[uri := Document(version, text, st.publishes)])
  }

  function Closed(st: State, uri: Uri, arrives: bool): State {
    if uri !in st.documents then st
    else Notified(st.(documents := st.documents - {uri}), DidClose(uri), arrives)
  }

  /** What a sync reports when every write arrives. */
  function OutcomeOf(st: State, uri: Uri, disk: Option<string>): Synced {
    if disk == None then Missing
    else if uri !in st.documents then Opened
    else if st.documents[uri].text != disk.value then Changed
    else Unchanged
  }

  /** A sync of `uri`, whose file is gone or holds some text. */
  function SyncedState(
    savesWanted: bool, st: State, uri: Uri, disk: Option<string>, arrives: bool, saveArrives: bool): State {
    match OutcomeOf(st, uri, disk)
    case Missing => Closed(st, uri, arrives)
    case Opened => Notified(Stored(st, uri, 1, disk.value), DidOpen(uri, 1, disk.value), arrives)
    case Unchanged => st
    case Changed =>
      var version := st.documents[uri].version + 1;
      var changed := Notified(Stored(st, uri, version, disk.value), DidChange(uri, version, disk.value), arrives);
      if arrives && savesWanted then Notified(changed, DidSave(uri), saveArrives) else changed
  }

  // ---- runs --------------------------------------------------------------------------------------------------

  datatype Step =
    | SyncStep(uri: Uri, disk: Option<string>, arrives: bool, saveArrives: bool)
    | CloseStep(uri: Uri, arrives: bool)

  function Next(savesWanted: bool, st: State, step: Step): State {
    match step
    case SyncStep(uri, disk, arrives, saveArrives) => SyncedState(savesWanted, st, uri, disk, arrives, saveArrives)
    case CloseStep(uri, arrives) => Closed(st, uri, arrives)
  }

  /** The pipe takes everything the step has to write. */
  predicate Delivers(savesWanted: bool, st: State, step: Step) {
    match step
    case CloseStep(uri, arrives) => uri in st.documents ==> arrives
    case SyncStep(uri, disk, arrives, saveArrives) =>
      match OutcomeOf(st, uri, disk)
      case Missing => uri in st.documents ==> arrives
      case Opened => arrives
      case Changed => arrives && (savesWanted ==> saveArrives)
      case Unchanged => true
  }

  function RunOf(savesWanted: bool, steps: seq<Step>): State {
    if steps == [] then START else Next(savesWanted, RunOf(savesWanted, steps[..|steps| - 1]), steps[|steps| - 1])
  }

  predicate AllDelivered(savesWanted: bool, steps: seq<Step>) {
    steps == [] ||
    (AllDelivered(savesWanted, steps[..|steps| - 1]) &&
     Delivers(savesWanted, RunOf(savesWanted, steps[..|steps| - 1]), steps[|steps| - 1]))
  }

  /** What the last step about a file found on disk: nothing when it was gone or the step was a close. */
  function DiskText(step: Step): Option<string> {
    if step.SyncStep? then step.disk else None
  }

  /** What a step makes of the copy a server should hold: each new text since the open is one version. */
  function CopyNext(before: Option<Copy>, step: Step, uri: Uri): Option<Copy> {
    if step.uri != uri then before
    else if DiskText(step) == None then None
    else if before == None then Some(Copy(1, step.disk.value))
    else if before.value.text == step.disk.value then before
    else Some(Copy(before.value.version + 1, step.disk.value))
  }

  /** The copy a server should hold, read off the steps alone. */
  function CopyAfter(steps: seq<Step>, uri: Uri): Option<Copy> {
    if steps == [] then None
    else CopyNext(CopyAfter(steps[..|steps| - 1], uri), steps[|steps| - 1], uri)
  }

  function CopyOf(documents: map<Uri, Document>, uri: Uri): Option<Copy> {
    if uri in documents then Some(Copy(documents[uri].version, documents[uri].text)) else None
  }

  lemma {:induction false} OneStepCopies(savesWanted: bool, st: State, step: Step, uri: Uri)
    ensures CopyOf(Next(savesWanted, st, step).documents, uri) == CopyNext(CopyOf(st.documents, uri), step, uri)
  {
    if step.uri != uri {
      OtherFilesStay(savesWanted, st, step, uri);
    }
  }

  lemma {:induction false} OtherFilesStay(savesWanted: bool, st: State, step: Step, uri: Uri)
    requires step.uri != uri
    ensures CopyOf(Next(savesWanted, st, step).documents, uri) == CopyOf(st.documents, uri)
  {
  }

  /** The client tracks exactly the files whose last step found a text, with that text and its version. */
  lemma {:induction false} DocumentsFollowSteps(savesWanted: bool, steps: seq<Step>, uri: Uri)
    ensures CopyOf(RunOf(savesWanted, steps).documents, uri) == CopyAfter(steps, uri)
  {
    hide Next, CopyNext, CopyOf;
    if steps == [] {
      assert CopyOf(START.documents, uri) == None by { Nothing(uri); }
    } else {
      var before := steps[..|steps| - 1];
      DocumentsFollowSteps(savesWanted, before, uri);
      OneStepCopies(savesWanted, RunOf(savesWanted, before), steps[|steps| - 1], uri);
    }
  }

  lemma {:induction false} Nothing(uri: Uri)
    ensures CopyOf(START.documents, uri) == None
  {
  }

  lemma {:induction false} StoredCopies(st: State, uri: Uri, version: nat, text: string)
    ensures CopiesOf(Stored(st, uri, version, text).documents) == CopiesOf(st.documents)[uri := Copy(version, text)]
  {
  }

  lemma {:induction false} DroppedCopies(documents: map<Uri, Document>, uri: Uri)
    ensures CopiesOf(documents - {uri}) == CopiesOf(documents) - {uri}
  {
  }

  lemma {:induction false} SameFiles(documents: map<Uri, Document>, uri: Uri)
    ensures uri in CopiesOf(documents) <==> uri in documents
    ensures uri in documents ==> CopiesOf(documents)[uri] == Copy(documents[uri].version, documents[uri].text)
  {
  }

  ghost predicate Mirrored(st: State) {
    Replay(st.log) == Some(CopiesOf(st.documents))
  }

  lemma {:induction false} OneNotification(st: State, n: Notification, documents: map<Uri, Document>)
    requires Mirrored(st) && Receive(CopiesOf(st.documents), n) == Some(CopiesOf(documents))
    ensures Mirrored(Notified(st.(documents := documents), n, true))
  {
    hide CopiesOf, Receive, Replay;
    ReplayOneMore(st.log, n);
  }

  lemma {:induction false} ClosingMirrors(st: State, uri: Uri)
    requires Mirrored(st)
    ensures Mirrored(Closed(st, uri, true))
  {
    hide CopiesOf, Mirrored;
    SameFiles(st.documents, uri);
    DroppedCopies(st.documents, uri);
    if uri in st.documents {
      OneNotification(st, DidClose(uri), st.documents - {uri});
    }
  }

  lemma {:induction false} StoringMirrors(st: State, uri: Uri, n: Notification)
    requires Mirrored(st) && n.uri == uri
    requires if uri in st.documents then n.DidChange? && n.version == st.documents[uri].version + 1
             else n.DidOpen? && n.version == 1
    ensures Mirrored(Notified(Stored(st, uri, n.version, n.text), n, true))
  {
    hide CopiesOf, Mirrored;
    SameFiles(st.documents, uri);
    StoredCopies(st, uri, n.version, n.text);
    OneNotification(st, n, Stored(st, uri, n.version, n.text).documents);
  }

  lemma {:induction false} SavingMirrors(st: State, uri: Uri)
    requires Mirrored(st) && uri in st.documents
    ensures Mirrored(Notified(st, DidSave(uri), true))
  {
    hide CopiesOf, Mirrored;
    SameFiles(st.documents, uri);
    OneNotification(st, DidSave(uri), st.documents);
  }

  /** A delivered step keeps the server's copies those of the client; an undelivered one ends the session. */
  lemma {:induction false} StepKeepsMirror(savesWanted: bool, st: State, step: Step)
    requires st.alive
    ensures Next(savesWanted, st, step).alive <==> Delivers(savesWanted, st, step)
    ensures Mirrored(st) && Delivers(savesWanted, st, step) ==> Mirrored(Next(savesWanted, st, step))
  {
    hide Mirrored;
    if Mirrored(st) && Delivers(savesWanted, st, step) {
      var uri := step.uri;
      ClosingMirrors(st, uri);
      if step.SyncStep? {
        match OutcomeOf(st, uri, step.disk)
        case Missing =>
        case Unchanged =>
        case Opened => StoringMirrors(st, uri, DidOpen(uri, 1, step.disk.value));
        case Changed =>
          var n := DidChange(uri, st.documents[uri].version + 1, step.disk.value);
          StoringMirrors(st, uri, n);
          SavingMirrors(Notified(Stored(st, uri, n.version, n.text), n, true), uri);
      }
    }
  }

  /**
    Over every run of syncs and closes whose writes all arrive, and only then, the
    client stays alive; and the server, replaying what it was sent, then holds
    exactly the text each file had on disk when it was last synced, at its version.
   */
  lemma {:induction false} ServerHoldsLastSyncedTexts(savesWanted: bool, steps: seq<Step>)
    ensures var st := RunOf(savesWanted, steps);
            && (st.alive <==> AllDelivered(savesWanted, steps))
            && (st.alive ==> Mirrored(st))
            && (st.alive ==> forall uri ::
                  CopyAfter(steps, uri) == if uri in Replay(st.log).value then Some(Replay(st.log).value[uri])
                    else None)
  {
    var st := RunOf(savesWanted, steps);
    if steps == [] {
      assert CopiesOf(map[]) == map[];
    } else {
      var before, step := RunOf(savesWanted, steps[..|steps| - 1]), steps[|steps| - 1];
      ServerHoldsLastSyncedTexts(savesWanted, steps[..|steps| - 1]);
      if before.alive {
        StepKeepsMirror(savesWanted, before, step);
      }
    }
    forall uri
      ensures CopyAfter(steps, uri) == if uri in CopiesOf(st.documents) then Some(CopiesOf(st.documents)[uri]) else None
    {
      DocumentsFollowSteps(savesWanted, steps, uri);
      SameFiles(st.documents, uri);
    }
  }

  /**
    At every moment of such a run the opens of a file lead its closes by one or
    none, and an open document's version counts the changes since its open.
   */
  lemma {:induction false} OpensAndClosesAlternate(savesWanted: bool, steps: seq<Step>, uri: Uri, k: nat)
    requires AllDelivered(savesWanted, steps) && k <= |RunOf(savesWanted, steps).log|
    ensures var sent := RunOf(savesWanted, steps).log[..k];
            && Closes(sent, uri) <= Opens(sent, uri) <= Closes(sent, uri) + 1
            && Replay(sent).Some?
            && (uri in Replay(sent).value <==> Opens(sent, uri) == Closes(sent, uri) + 1)
            && (uri in Replay(sent).value ==> Replay(sent).value[uri].version == 1 + ChangesSinceOpen(sent, uri))
  {
    ServerHoldsLastSyncedTexts(savesWanted, steps);
    var log := RunOf(savesWanted, steps).log;
    ReplayPrefix(log, k);
    OpensLeadCloses(log[..k], uri);
  }

  // ---- the client ----------------------------------------------------------------------------------------

  class Client {
    var documents: map<Uri, Document>
    var publishes: nat
    /** Cleared when a write to the server fails. */
    var alive: bool
    /** The server asked to be told about saves. */
    const savesWanted: bool

    /** The notifications written so far. */
    ghost var log: seq<Notification>

    constructor (savesWanted: bool)
      ensures Current() == START && this.savesWanted == savesWanted
    {
      this.savesWanted := savesWanted;
      documents, publishes, alive, log := map[], 0, true, [];
    }

    ghost function Current(): State
      reads this
    {
      State(documents, publishes, alive, log)
    }

    method Notify(n: Notification, arrives: bool) returns (ok: bool)
      modifies this
      ensures Current() == Notified(old(Current()), n, arrives) && ok == arrives
    {
      if arrives {
        log := log + [n];
      } else {
        alive := false;
      }
      ok := arrives;
    }

    /** Brings the server's copy of a file up to date with the disk. */
    method Sync(uri: Uri, disk: Option<string>, arrives: bool, saveArrives: bool) returns (outcome: Result<Synced, ()>)
      modifies this
      ensures Current() == SyncedState(savesWanted, old(Current()), uri, disk, arrives, saveArrives)
      ensures outcome == if Delivers(savesWanted, old(Current()), SyncStep(uri, disk, arrives, saveArrives))
                         then Ok(OutcomeOf(old(Current()), uri, disk)) else Err(())
    {
      if disk == None {
        var ok := Close(uri, arrives);
        return if ok then Ok(Missing) else Err(());
      }
      var text := disk.value;
      if uri !in documents {
        documents := documents[uri := Document(1, text, publishes)];
        var ok := Notify(DidOpen(uri, 1, text), arrives);
        return if ok then Ok(Opened) else Err(());
      }
      if documents[uri].text == text {
        return Ok(Unchanged);
      }
      var version := documents[uri].version + 1;
      documents := documents[uri := Document(version, text, publishes)];
      var ok := Notify(DidChange(uri, version, text), arrives);
      if !ok {
        return Err(());
      }
      if savesWanted {
        ok := Notify(DidSave(uri), saveArrives);
        if !ok {
          return Err(());
        }
      }
      outcome := Ok(Changed);
    }

    /** Stops tracking a file: a document that was open is closed. */
    method Close(uri: Uri, arrives: bool) returns (ok: bool)
      modifies this
      ensures Current() == Closed(old(Current()), uri, arrives)
      ensures ok <==> Delivers(savesWanted, old(Current()), CloseStep(uri, arrives))
    {
      if uri !in documents {
        return true;
      }
      documents := documents - {uri};
      ok := Notify(DidClose(uri), arrives);
    }
  }

  /** The steps of a run, one after another. */
  method RunSteps(savesWanted: bool, steps: seq<Step>) returns (client: Client)
    ensures fresh(client) && client.Current() == RunOf(savesWanted, steps)
  {
    client := new Client(savesWanted);
    for k := 0 to |steps|
      invariant fresh(client) && client.savesWanted == savesWanted && client.Current() == RunOf(savesWanted, steps[..k])
    {
      assert steps[..k + 1][..k] == steps[..k];
      match steps[k]
      case SyncStep(uri, disk, arrives, saveArrives) => var _ := client.Sync(uri, disk, arrives, saveArrives);
      case CloseStep(uri, arrives) => var _ := client.Close(uri, arrives);
    }
    assert steps[..|steps|] == steps;
  }
}
