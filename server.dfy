/** The `POST /api/submit` handler: the immediate response, then the
    background pipeline that saves the attachments, generates the app,
    assembles the project, publishes it and notifies the evaluator.

    What lies outside the handler's code is a parameter (`World`): the
    generator's client, Node's base64 codec, the current year, the outcome
    of publishing and the evaluator's answers. Any exception in the pipeline
    ends it; the handler catches and logs it, so the model records it as a
    final `Aborted` event. */
module Server {
  import opened Wrappers
  import opened JsValues
  import opened Encoding
  import opened Intake
  import opened Attachments
  import opened RepoName
  import opened Generator
  import opened Project
  import opened Notifier

  /** `SHARED_SECRET` and `GH_USER` from the environment. */
  datatype Config = Config(sharedSecret: string, ghUser: string)

  /** `createRepoAndDeploy`: the commit sha of the pushed repository, or an
      exception. */
  datatype PublishOutcome = Deployed(commitSha: string) | PublishFailed

  datatype World = World(
    backend: Backend,
    encode: string -> string,
    decode: string -> seq<uint8>,
    year: nat,
    publish: PublishOutcome,
    respond: nat -> Attempt)

  /** The record posted to `evaluation_url`. */
  datatype Callback = Callback(
    email: Value, task: Value, round: Value, nonce: Value,
    repoUrl: string, commitSha: string, pagesUrl: string)

  datatype Failure =
    | TaskNotConvertible          // `${payload.task}` in the directory name threw
    | BadAttachment(index: nat)   // an attachment without string `name` and `url`
    | GeneratorThrew              // `generateApp` threw
    | TaskNotText                 // `task.replace` on a value that is not a string
    | PublishError                // `createRepoAndDeploy` threw

  datatype Event =
    | Responded(response: Response)
    | SavedAttachment(path: string)
    | GeneratedApp(files: seq<GeneratedFile>)
    | Published(repoName: string, commitSha: string)
    | Notified(url: Value, callback: Callback, delivered: bool, attempts: nat)
    | Aborted(failure: Failure)

  // ---------------------------------------------------------------------
  // The callback

  const GitHubPrefix: string := "https://github.com/"

  function RepoUrl(user: string, repoName: string): string {
    GitHubPrefix + user + "/" + repoName
  }

  function PagesUrl(user: string, repoName: string): string {
    "https://" + user + ".github.io/" + repoName + "/"
  }

  function ComposeCallback(p: Payload, user: string, repoName: string, commitSha: string): (c: Callback)
    ensures c.email == Prop(p, "email") && c.task == Prop(p, "task")
    ensures c.round == Prop(p, "round") && c.nonce == Prop(p, "nonce")
    ensures c.commitSha == commitSha
    ensures c.repoUrl == "https://github.com/" + user + "/" + repoName
    ensures c.pagesUrl == "https://" + user + ".github.io/" + repoName + "/"
  {
    Callback(Prop(p, "email"), Prop(p, "task"), Prop(p, "round"), Prop(p, "nonce"),
             RepoUrl(user, repoName), commitSha, PagesUrl(user, repoName))
  }

  /** The text after the last `/`. */
  function LastSegment(s: string): (r: string)
    ensures '/' !in r && |r| <= |s| && r == s[|s| - |r|..]
    ensures |r| < |s| ==> s[|s| - |r| - 1] == '/'
  {
    if s == [] || s[|s| - 1] == '/' then []
    else LastSegment(s[..|s| - 1]) + [s[|s| - 1]]
  }

  lemma {:induction false} LastSegmentAfterSlash(x: string, y: string)
    requires '/' !in y
    ensures LastSegment(x + "/" + y) == y
    decreases |y|
  {
    var s := x + "/" + y;
    if y == [] {
      assert s[|s| - 1] == '/';
    } else {
      var n := |y| - 1;
      assert s[..|s| - 1] == x + "/" + y[..n];
      LastSegmentAfterSlash(x, y[..n]);
      assert y == y[..n] + [y[n]];
    }
  }

  /** The callback's `repo_url` is under `https://github.com/` and ends in
      the repository name, and its `pages_url` ends in the name and a `/`. A
      sanitised name holds no `/`, so the name is exactly what follows the
      last `/` of `repo_url`. */
  lemma CallbackNamesRepository(p: Payload, user: string, repoName: string, commitSha: string)
    requires forall i :: 0 <= i < |repoName| ==> IsRepoNameChar(repoName[i])
    ensures var c := ComposeCallback(p, user, repoName, commitSha);
      LastSegment(c.repoUrl) == repoName
      && c.repoUrl[..|GitHubPrefix|] == GitHubPrefix
      && c.pagesUrl[|c.pagesUrl| - |repoName| - 1..] == repoName + "/"
  {
    LastSegmentAfterSlash(GitHubPrefix + user, repoName);
    var c := ComposeCallback(p, user, repoName, commitSha);
    assert c.repoUrl == (GitHubPrefix + user) + "/" + repoName;
    assert c.pagesUrl == ("https://" + user + ".github.io/") + (repoName + "/");
  }

  // ---------------------------------------------------------------------
  // The files the pipeline writes

  /** `payload.attachments || []`, the value handed to the generator. */
  function AttachmentsArgument(attachments: Value): Value {
    if Truthy(attachments) then attachments else Arr([])
  }

  /** The items the save loop visits: none unless `attachments` is an array. */
  function AttachmentItems(attachments: Value): seq<Value> {
    if attachments.Arr? then attachments.items else []
  }

  /** `writeFileSync(path.join(tmp, a.name), Buffer.from(data, "base64"))`
      for each attachment in turn. */
  function AttachmentWrites(saved: seq<Attachment>, decode: string -> seq<uint8>): (ws: seq<Write>)
    ensures |ws| == |saved|
    ensures forall i :: 0 <= i < |saved| ==> ws[i] == Write(saved[i].name, decode(StripDataPrefix(saved[i].url)))
  {
    if saved == [] then []
    else
      var last := saved[|saved| - 1];
      AttachmentWrites(saved[..|saved| - 1], decode) + [Write(last.name, decode(StripDataPrefix(last.url)))]
  }

  lemma AttachmentWritesSnoc(saved: seq<Attachment>, a: Attachment, decode: string -> seq<uint8>)
    ensures AttachmentWrites(saved + [a], decode)
      == AttachmentWrites(saved, decode) + [Write(a.name, decode(StripDataPrefix(a.url)))]
    ensures SavedEvents(saved + [a]) == SavedEvents(saved) + [SavedAttachment(a.name)]
  {
    assert (saved + [a])[..|saved|] == saved;
  }

  function SavedEvents(saved: seq<Attachment>): (es: seq<Event>)
    ensures |es| == |saved|
    ensures forall i :: 0 <= i < |saved| ==> es[i] == SavedAttachment(saved[i].name)
  {
    if saved == [] then []
    else SavedEvents(saved[..|saved| - 1]) + [SavedAttachment(saved[|saved| - 1].name)]
  }

  /** The default `LICENSE`, as `writeFileSync` stores a string: UTF-8. */
  function LicenseText(year: nat, email: Value): string {
    "MIT License\n\nCopyright (c) " + NatToDecimal(year) + " " + Display(email) + "\n\nPermission is hereby..."
  }

  function ReadmeText(repoName: string, brief: Value): string {
    "# " + repoName + "\n\nBrief: " + Display(brief) + "\n\nUsage: open index.html or visit pages url\n"
  }

  /** The generator's arguments: the brief, the attachments value and the
      task as seed, already converted to text when the directory was
      named. */
  function GeneratorRequest(p: Payload): Request {
    Request(Prop(p, "brief"), AttachmentsArgument(Prop(p, "attachments")), Display(Prop(p, "task")))
  }

  /** The delivery result of `postWithRetries`: true with the number of the
      successful attempt plus one, or false after all eight. */
  function Delivery(respond: nat -> Attempt): (bool, nat) {
    match FirstSuccess(respond, 0)
    case Some(k) => (true, k + 1)
    case None => (false, MaxAttempts)
  }

  // ---------------------------------------------------------------------
  // The pipeline, as a function of the request and the world

  datatype Run = Run(events: seq<Event>, tree: Tree)

  /** The events of the background pipeline and the directory it leaves,
      starting from the directory `start`: naming the directory converts the
      task, then the attachments are saved, and the pipeline stops at the
      first one that cannot be read. */
  function Background(p: Payload, cfg: Config, world: World, start: Tree): Run {
    if !Displayable(Prop(p, "task")) then Run([Aborted(TaskNotConvertible)], start)
    else FromAttachments(p, cfg, world, start)
  }

  /** The pipeline from the save loop on. */
  function FromAttachments(p: Payload, cfg: Config, world: World, start: Tree): Run {
    var items := AttachmentItems(Prop(p, "attachments"));
    var saved := ParsedPrefix(items);
    var afterSave := ApplyWrites(start, AttachmentWrites(saved, world.decode));
    if |saved| < |items| then
      Run(SavedEvents(saved) + [Aborted(BadAttachment(|saved|))], afterSave)
    else
      Run(SavedEvents(saved) + LaterEvents(p, cfg, world), LaterTree(p, world, afterSave))
  }

  /** The events of the rest of the pipeline: the app is generated, and when
      the task is text the project is published and announced. They do not
      depend on the directory. */
  function LaterEvents(p: Payload, cfg: Config, world: World): seq<Event> {
    match Generated(GeneratorRequest(p), world.backend, world.encode)
    case None => [Aborted(GeneratorThrew)]
    case Some(files) =>
      var task := Prop(p, "task");
      if !task.Str? then [GeneratedApp(files), Aborted(TaskNotText)]
      else [GeneratedApp(files)] + Publication(p, cfg, world, Sanitise(task.s))
  }

  /** The directory after the rest of the pipeline: when generation
      succeeds and the task is text, the project assembled under its
      sanitised name. */
  function LaterTree(p: Payload, world: World, t: Tree): Tree {
    var generated := Generated(GeneratorRequest(p), world.backend, world.encode);
    var task := Prop(p, "task");
    if generated.None? || !task.Str? then t
    else
      var repoName := Sanitise(task.s);
      var license := Utf8Encode(LicenseText(world.year, Prop(p, "email")));
      var readme := Utf8Encode(ReadmeText(repoName, Prop(p, "brief")));
      Assembled(t, repoName, generated.value, world.decode, license, readme)
  }

  /** Publishing, then, only if it succeeded, the callback. */
  function Publication(p: Payload, cfg: Config, world: World, repoName: string): seq<Event> {
    match world.publish
    case PublishFailed => [Aborted(PublishError)]
    case Deployed(sha) =>
      var (delivered, attempts) := Delivery(world.respond);
      [Published(repoName, sha),
       Notified(Prop(p, "evaluation_url"), ComposeCallback(p, cfg.ghUser, repoName, sha), delivered, attempts)]
  }

  // ---------------------------------------------------------------------
  // The handler

  /** The save loop: writes the attachments in order until the first one
      that cannot be read, whose index it returns. */
  method SaveAttachments(items: seq<Value>, decode: string -> seq<uint8>, ws: Workspace)
    returns (events: seq<Event>, failedAt: Option<nat>)
    modifies ws
    ensures var saved := ParsedPrefix(items);
      events == SavedEvents(saved)
      && ws.files == ApplyWrites(old(ws.files), AttachmentWrites(saved, decode))
      && (failedAt.None? <==> |saved| == |items|)
      && (failedAt.Some? ==> failedAt.value == |saved|)
  {
    ghost var start := ws.files;
    ghost var saved := ParsedPrefix(items);
    events := [];
    var i := 0;
    while i < |items|
      invariant i <= |saved|
      invariant ws.files == ApplyWrites(start, AttachmentWrites(saved[..i], decode))
      invariant events == SavedEvents(saved[..i])
    {
      ParsedPrefixStep(items, i);
      var parsed := ParseAttachment(items[i]);
      if parsed.None? {
        assert saved[..i] == saved;
        return events, Some(i);
      }
      var a := parsed.value;
      TakeOneMore(saved, i);
      AttachmentWritesSnoc(saved[..i], a, decode);
      ApplyWritesSnoc(start, AttachmentWrites(saved[..i], decode), Write(a.name, decode(StripDataPrefix(a.url))));
      ws.WriteFile(a.name, decode(StripDataPrefix(a.url)));
      events := events + [SavedAttachment(a.name)];
      i := i + 1;
    }
    assert saved[..i] == saved;
    failedAt := None;
  }

  /** The project loop and the two defaults: each generated file is written
      under `repoName`, then `LICENSE` and `README.md` where nothing exists. */
  method WriteProject(repoName: string, files: seq<GeneratedFile>, decode: string -> seq<uint8>,
                      license: seq<uint8>, readme: seq<uint8>, ws: Workspace)
    modifies ws
    ensures ws.files == Assembled(old(ws.files), repoName, files, decode, license, readme)
  {
    ghost var start := ws.files;
    var k := 0;
    while k < |files|
      invariant k <= |files|
      invariant ws.files == ApplyWrites(start, GeneratedWrites(repoName, files[..k], decode))
    {
      TakeOneMore(files, k);
      GeneratedWritesSnoc(repoName, files[..k], files[k], decode);
      ApplyWritesSnoc(start, GeneratedWrites(repoName, files[..k], decode),
                      Write(Join(repoName, files[k].path), decode(files[k].content)));
      ws.WriteFile(Join(repoName, files[k].path), decode(files[k].content));
      k := k + 1;
    }
    assert files[..k] == files;
    if !ws.Exists(Join(repoName, "LICENSE")) {
      ws.WriteFile(Join(repoName, "LICENSE"), license);
    }
    if !ws.Exists(Join(repoName, "README.md")) {
      ws.WriteFile(Join(repoName, "README.md"), readme);
    }
  }

  /** `createRepoAndDeploy`, then the callback and `postWithRetries`. */
  method PublishAndNotify(p: Payload, cfg: Config, world: World, repoName: string) returns (events: seq<Event>)
    ensures events == Publication(p, cfg, world, repoName)
  {
    match world.publish
    case PublishFailed =>
      events := [Aborted(PublishError)];
    case Deployed(sha) =>
      var callback := ComposeCallback(p, cfg.ghUser, repoName, sha);
      var delivered, attempts, sleeps := PostWithRetries(world.respond);
      events := [Published(repoName, sha), Notified(Prop(p, "evaluation_url"), callback, delivered, attempts)];
  }

  /** Generation, the project and its publication, after the attachments. */
  method BuildAndPublish(p: Payload, cfg: Config, world: World, ws: Workspace) returns (events: seq<Event>)
    modifies ws
    ensures events == LaterEvents(p, cfg, world)
    ensures ws.files == LaterTree(p, world, old(ws.files))
  {
    var generated := GenerateApp(GeneratorRequest(p), world.backend, world.encode);
    if generated.None? {
      events := [Aborted(GeneratorThrew)];
      return;
    }
    var files := generated.value;
    var task := Prop(p, "task");
    if !task.Str? {
      events := [GeneratedApp(files), Aborted(TaskNotText)];
      return;
    }
    var repoName := Sanitise(task.s);
    var license := Utf8Encode(LicenseText(world.year, Prop(p, "email")));
    var readme := Utf8Encode(ReadmeText(repoName, Prop(p, "brief")));
    WriteProject(repoName, files, world.decode, license, readme, ws);
    var published := PublishAndNotify(p, cfg, world, repoName);
    events := [GeneratedApp(files)] + published;
  }

  /** The background pipeline, run against the submission's directory. */
  method RunInBackground(p: Payload, cfg: Config, world: World, ws: Workspace) returns (events: seq<Event>)
    modifies ws
    ensures events == Background(p, cfg, world, old(ws.files)).events
    ensures ws.files == Background(p, cfg, world, old(ws.files)).tree
  {
    if !Displayable(Prop(p, "task")) {
      events := [Aborted(TaskNotConvertible)];
      return;
    }
    var items := AttachmentItems(Prop(p, "attachments"));
    var failedAt;
    events, failedAt := SaveAttachments(items, world.decode, ws);
    if failedAt.Some? {
      events := events + [Aborted(BadAttachment(failedAt.value))];
      return;
    }
    var rest := BuildAndPublish(p, cfg, world, ws);
    events := events + rest;
  }

  /** `POST /api/submit`: the response first, then, only for an accepted
      submission, the pipeline in a fresh temporary directory. */
  method HandleSubmit(p: Payload, cfg: Config, world: World) returns (trace: seq<Event>, tree: Tree)
    ensures |trace| >= 1 && trace[0] == Responded(ImmediateResponse(p, cfg.sharedSecret))
    ensures ImmediateResponse(p, cfg.sharedSecret).code != 200 ==> trace == [trace[0]] && tree == map[]
    ensures ImmediateResponse(p, cfg.sharedSecret).code == 200 ==>
      trace[1..] == Background(p, cfg, world, map[]).events && tree == Background(p, cfg, world, map[]).tree
  {
    var response := ImmediateResponse(p, cfg.sharedSecret);
    trace := [Responded(response)];
    tree := map[];
    if response.code != 200 {
      return;
    }
    var ws := new Workspace();
    var events := RunInBackground(p, cfg, world, ws);
    trace := trace + events;
    tree := ws.files;
  }

  // ---------------------------------------------------------------------
  // Properties of the pipeline

  predicate Notifies(events: seq<Event>) {
    exists i :: 0 <= i < |events| && events[i].Notified?
  }

  /** Every step before publishing succeeds: the task is text (so it also
      converts), the attachments are absent or an array whose every item
      reads, and the brief converts, so the prompt can be built. */
  predicate ReachesPublish(p: Payload) {
    var attachments := Prop(p, "attachments");
    var items := AttachmentItems(attachments);
    Prop(p, "task").Str?
    && (!Truthy(attachments) || attachments.Arr?)
    && |ParsedPrefix(items)| == |items|
    && Displayable(Prop(p, "brief"))
  }

  /** The pipeline's steps all succeed, publishing included. */
  predicate RunsToTheEnd(p: Payload, world: World) {
    ReachesPublish(p) && world.publish.Deployed?
  }

  /** Once every attachment is saved, generation succeeds exactly when the
      attachments are absent or an array and the brief converts. */
  lemma GenerationSucceedsIff(p: Payload, world: World)
    requires var items := AttachmentItems(Prop(p, "attachments"));
      |ParsedPrefix(items)| == |items|
    ensures Generated(GeneratorRequest(p), world.backend, world.encode).Some?
      <==> (!Truthy(Prop(p, "attachments")) || Prop(p, "attachments").Arr?) && Displayable(Prop(p, "brief"))
  {
    var attachments := Prop(p, "attachments");
    var req := GeneratorRequest(p);
    if Truthy(attachments) && !attachments.Arr? {
      NonArrayAttachmentsThrow(req, world.backend, world.encode);
    } else if Displayable(Prop(p, "brief")) {
      var items := AttachmentItems(attachments);
      assert forall i :: 0 <= i < |items| ==> ParseAttachment(items[i]).Some?;
      NamedAttachmentsGenerate(req, world.backend, world.encode);
    }
  }

  /** Attachments that are truthy but not an array are not saved, and
      `generateApp` throws on them before anything else happens: the run
      ends there and the directory is left as it was. */
  lemma NonArrayAttachmentsAbort(p: Payload, cfg: Config, world: World, start: Tree)
    requires Displayable(Prop(p, "task"))
    requires Truthy(Prop(p, "attachments")) && !Prop(p, "attachments").Arr?
    ensures Background(p, cfg, world, start) == Run([Aborted(GeneratorThrew)], start)
  {
    NonArrayAttachmentsThrow(GeneratorRequest(p), world.backend, world.encode);
    assert SavedEvents([]) == [];
  }

  /** Saved-attachment events in front change nothing about notification. */
  lemma NotifiesAfterSaves(saved: seq<Attachment>, rest: seq<Event>)
    ensures Notifies(SavedEvents(saved) + rest) <==> Notifies(rest)
  {
    var head := SavedEvents(saved);
    var es := head + rest;
    if Notifies(es) {
      var i :| 0 <= i < |es| && es[i].Notified?;
      if i >= |head| {
        assert rest[i - |head|] == es[i];
      }
    }
    if Notifies(rest) {
      var i :| 0 <= i < |rest| && rest[i].Notified?;
      assert es[|head| + i] == rest[i];
    }
  }

  /** After the attachments, the evaluator is notified exactly when
      generation succeeds, the task is text and publishing succeeds, and
      then as the last step, right after `Published`. */
  lemma LaterEventsNotify(p: Payload, cfg: Config, world: World)
    ensures var es := LaterEvents(p, cfg, world);
      var generated := Generated(GeneratorRequest(p), world.backend, world.encode);
      Notifies(es) <==> generated.Some? && Prop(p, "task").Str? && world.publish.Deployed?
    ensures var es := LaterEvents(p, cfg, world);
      var generated := Generated(GeneratorRequest(p), world.backend, world.encode);
      generated.Some? && Prop(p, "task").Str? && world.publish.Deployed? ==>
        |es| == 3 && es[1].Published? && es[2].Notified?
  {
    var es := LaterEvents(p, cfg, world);
    var generated := Generated(GeneratorRequest(p), world.backend, world.encode);
    if generated.Some? && Prop(p, "task").Str? && world.publish.Deployed? {
      assert es[2].Notified?;
    }
  }

  /** The evaluator is notified exactly when every step before it succeeds.
      When it is notified, the notification is the last event and comes
      right after `Published`. */
  lemma NotifiesIffRunsToTheEnd(p: Payload, cfg: Config, world: World, start: Tree)
    ensures var es := Background(p, cfg, world, start).events;
      Notifies(es) <==> RunsToTheEnd(p, world)
    ensures var es := Background(p, cfg, world, start).events;
      RunsToTheEnd(p, world) ==> |es| >= 2 && es[|es| - 1].Notified? && es[|es| - 2].Published?
  {
    if !Displayable(Prop(p, "task")) {
      assert !Notifies([Aborted(TaskNotConvertible)]);
    } else {
      FromAttachmentsNotifies(p, cfg, world, start);
    }
  }

  lemma FromAttachmentsNotifies(p: Payload, cfg: Config, world: World, start: Tree)
    ensures var es := FromAttachments(p, cfg, world, start).events;
      Notifies(es) <==> RunsToTheEnd(p, world)
    ensures var es := FromAttachments(p, cfg, world, start).events;
      RunsToTheEnd(p, world) ==> |es| >= 2 && es[|es| - 1].Notified? && es[|es| - 2].Published?
  {
    var items := AttachmentItems(Prop(p, "attachments"));
    var saved := ParsedPrefix(items);
    if |saved| < |items| {
      NotifiesAfterSaves(saved, [Aborted(BadAttachment(|saved|))]);
      assert !Notifies([Aborted(BadAttachment(|saved|))]);
    } else {
      assert FromAttachments(p, cfg, world, start).events == SavedEvents(saved) + LaterEvents(p, cfg, world);
      AllSavedNotifies(p, cfg, world);
    }
  }

  /** Once every attachment is saved, the events are the saved ones followed
      by the later ones, and notification is decided by the later ones. */
  lemma AllSavedNotifies(p: Payload, cfg: Config, world: World)
    requires var items := AttachmentItems(Prop(p, "attachments"));
      |ParsedPrefix(items)| == |items|
    ensures var es := SavedEvents(ParsedPrefix(AttachmentItems(Prop(p, "attachments")))) + LaterEvents(p, cfg, world);
      (Notifies(es) <==> RunsToTheEnd(p, world))
      && (RunsToTheEnd(p, world) ==> |es| >= 2 && es[|es| - 1].Notified? && es[|es| - 2].Published?)
  {
    var saved := ParsedPrefix(AttachmentItems(Prop(p, "attachments")));
    var rest := LaterEvents(p, cfg, world);
    NotifiesAfterSaves(saved, rest);
    LaterEventsNotify(p, cfg, world);
    GenerationSucceedsIff(p, world);
    var es := SavedEvents(saved) + rest;
    if RunsToTheEnd(p, world) {
      assert es[|es| - 1] == rest[2] && es[|es| - 2] == rest[1];
    }
  }

  /** A failed publish never notifies, and when every earlier step succeeds
      it ends the run with `PublishError`. */
  lemma PublishFailureSkipsNotify(p: Payload, cfg: Config, world: World, start: Tree)
    requires world.publish.PublishFailed?
    ensures !Notifies(Background(p, cfg, world, start).events)
    ensures var es := Background(p, cfg, world, start).events;
      ReachesPublish(p) ==> es[|es| - 1] == Aborted(PublishError)
  {
    NotifiesIffRunsToTheEnd(p, cfg, world, start);
    if ReachesPublish(p) {
      var items := AttachmentItems(Prop(p, "attachments"));
      GenerationSucceedsIff(p, world);
      var rest := LaterEvents(p, cfg, world);
      assert rest[|rest| - 1] == Aborted(PublishError);
      var es := SavedEvents(ParsedPrefix(items)) + rest;
      assert es[|es| - 1] == rest[|rest| - 1];
    }
  }

  /** An attachment that cannot be read stops the run right after the ones
      before it are saved: nothing is generated, written or posted, and the
      directory holds exactly those attachments. */
  lemma BadAttachmentStopsTheRun(p: Payload, cfg: Config, world: World, start: Tree)
    requires Displayable(Prop(p, "task"))
    requires var items := AttachmentItems(Prop(p, "attachments"));
      |ParsedPrefix(items)| < |items|
    ensures var saved := ParsedPrefix(AttachmentItems(Prop(p, "attachments")));
      Background(p, cfg, world, start)
        == Run(SavedEvents(saved) + [Aborted(BadAttachment(|saved|))],
               ApplyWrites(start, AttachmentWrites(saved, world.decode)))
  {
  }

  /** When every step before publishing succeeds, the directory is the
      assembled project: the generated files under the sanitised name with
      `LICENSE` and `README.md` present, a generated one never replaced by a
      default, and each generated path holding its last content decoded. */
  lemma ProjectIsAssembled(p: Payload, cfg: Config, world: World, start: Tree)
    requires ReachesPublish(p)
    ensures Generated(GeneratorRequest(p), world.backend, world.encode).Some?
    ensures var repoName := Sanitise(Prop(p, "task").s);
      var tree := Background(p, cfg, world, start).tree;
      PathExists(tree, Join(repoName, "LICENSE")) && PathExists(tree, Join(repoName, "README.md"))
    ensures var repoName := Sanitise(Prop(p, "task").s);
      var files := Generated(GeneratorRequest(p), world.backend, world.encode).value;
      var tree := Background(p, cfg, world, start).tree;
      forall i :: 0 <= i < |files| && (forall j :: i < j < |files| ==> files[j].path != files[i].path) ==>
        Join(repoName, files[i].path) in tree && tree[Join(repoName, files[i].path)] == world.decode(files[i].content)
  {
    GenerationSucceedsIff(p, world);
    var items := AttachmentItems(Prop(p, "attachments"));
    var saved := ParsedPrefix(items);
    var afterSave := ApplyWrites(start, AttachmentWrites(saved, world.decode));
    var repoName := Sanitise(Prop(p, "task").s);
    var files := Generated(GeneratorRequest(p), world.backend, world.encode).value;
    var license := Utf8Encode(LicenseText(world.year, Prop(p, "email")));
    var readme := Utf8Encode(ReadmeText(repoName, Prop(p, "brief")));
    assert Background(p, cfg, world, start).tree == Assembled(afterSave, repoName, files, world.decode, license, readme);
    AssembledContents(afterSave, repoName, files, world.decode, license, readme);
    forall i | 0 <= i < |files| && (forall j :: i < j < |files| ==> files[j].path != files[i].path)
      ensures var tree := Assembled(afterSave, repoName, files, world.decode, license, readme);
        Join(repoName, files[i].path) in tree && tree[Join(repoName, files[i].path)] == world.decode(files[i].content)
    {
      GeneratedFileLands(afterSave, repoName, files, world.decode, license, readme, i);
    }
  }

  /** `postWithRetries` reports delivery exactly when one of the eight
      attempts got status 200, after that many attempts; otherwise after all
      eight. */
  lemma DeliveryIffSomeAttemptSucceeds(respond: nat -> Attempt)
    ensures Delivery(respond).0 <==> exists k :: 0 <= k < MaxAttempts && Succeeded(respond(k))
    ensures 1 <= Delivery(respond).1 <= MaxAttempts
    ensures !Delivery(respond).0 ==> Delivery(respond).1 == MaxAttempts
  {
  }

  /** When every step succeeds, the last event posts to `evaluation_url` the
      callback for the sanitised repository name and the published commit,
      and the `repo_url` it carries ends in that name. */
  lemma NotificationCarriesTheCallback(p: Payload, cfg: Config, world: World, start: Tree)
    requires RunsToTheEnd(p, world)
    ensures var es := Background(p, cfg, world, start).events;
      var repoName := Sanitise(Prop(p, "task").s);
      var sha := world.publish.commitSha;
      var c := ComposeCallback(p, cfg.ghUser, repoName, sha);
      |es| >= 2
      && es[|es| - 2] == Published(repoName, sha)
      && es[|es| - 1] == Notified(Prop(p, "evaluation_url"), c, Delivery(world.respond).0, Delivery(world.respond).1)
      && LastSegment(c.repoUrl) == repoName
  {
    var saved := ParsedPrefix(AttachmentItems(Prop(p, "attachments")));
    var rest := LaterEvents(p, cfg, world);
    var repoName := Sanitise(Prop(p, "task").s);
    PublishedThenNotified(p, cfg, world);
    assert Background(p, cfg, world, start) == FromAttachments(p, cfg, world, start);
    var es := SavedEvents(saved) + rest;
    assert Background(p, cfg, world, start).events == es;
    assert es[|es| - 1] == rest[2] && es[|es| - 2] == rest[1];
    CallbackNamesRepository(p, cfg.ghUser, repoName, world.publish.commitSha);
  }

  /** When every step succeeds, the later events are the generated app, the
      publication under the sanitised name and the callback POST. */
  lemma PublishedThenNotified(p: Payload, cfg: Config, world: World)
    requires RunsToTheEnd(p, world)
    ensures var rest := LaterEvents(p, cfg, world);
      var repoName := Sanitise(Prop(p, "task").s);
      var sha := world.publish.commitSha;
      |rest| == 3 && rest[0].GeneratedApp?
      && rest[1] == Published(repoName, sha)
      && rest[2] == Notified(Prop(p, "evaluation_url"), ComposeCallback(p, cfg.ghUser, repoName, sha),
                             Delivery(world.respond).0, Delivery(world.respond).1)
  {
    GenerationSucceedsIff(p, world);
  }

  /** The generator fell back to its template. */
  predicate FallsBack(backend: Backend) {
    !ReplyHasFiles(backend)
  }

  /** Without a usable reply, and with a codec whose decoder inverts its
      encoder, the project holds the fallback page and the fallback README
      as UTF-8 text; the default README is not written, since the
      generator's one is already there. */
  lemma FallbackProjectHoldsTemplates(p: Payload, cfg: Config, world: World, start: Tree)
    requires ReachesPublish(p)
    requires FallsBack(world.backend)
    requires forall s :: world.decode(world.encode(s)) == Utf8Encode(s)
    ensures var repoName := Sanitise(Prop(p, "task").s);
      var req := GeneratorRequest(p);
      var tree := Background(p, cfg, world, start).tree;
      Join(repoName, "index.html") in tree && Join(repoName, "README.md") in tree
      && tree[Join(repoName, "index.html")] == Utf8Encode(FallbackIndexHtml(req.seed, ImageSource(req.attachments)))
      && tree[Join(repoName, "README.md")] == Utf8Encode(FallbackReadme(req.seed))
  {
    var items := AttachmentItems(Prop(p, "attachments"));
    var afterSave := ApplyWrites(start, AttachmentWrites(ParsedPrefix(items), world.decode));
    var repoName := Sanitise(Prop(p, "task").s);
    var license := Utf8Encode(LicenseText(world.year, Prop(p, "email")));
    var readme := Utf8Encode(ReadmeText(repoName, Prop(p, "brief")));
    FallbackTree(p, cfg, world, start);
    TemplatesLand(afterSave, repoName, GeneratorRequest(p), world.encode, world.decode, license, readme);
  }

  /** Without a usable reply the project is assembled from the fallback's
      files. */
  lemma FallbackTree(p: Payload, cfg: Config, world: World, start: Tree)
    requires ReachesPublish(p)
    requires FallsBack(world.backend)
    ensures var items := AttachmentItems(Prop(p, "attachments"));
      var repoName := Sanitise(Prop(p, "task").s);
      Background(p, cfg, world, start).tree
        == Assembled(ApplyWrites(start, AttachmentWrites(ParsedPrefix(items), world.decode)),
                     repoName, FallbackFiles(GeneratorRequest(p), world.encode), world.decode,
                     Utf8Encode(LicenseText(world.year, Prop(p, "email"))),
                     Utf8Encode(ReadmeText(repoName, Prop(p, "brief"))))
  {
    GenerationSucceedsIff(p, world);
    var req := GeneratorRequest(p);
    assert Generated(req, world.backend, world.encode) == Some(FallbackFiles(req, world.encode));
  }

  lemma TemplatesLand(t: Tree, repoName: string, req: Request, encode: string -> string, decode: string -> seq<uint8>,
                      license: seq<uint8>, readme: seq<uint8>)
    requires forall s :: decode(encode(s)) == Utf8Encode(s)
    ensures var tree := Assembled(t, repoName, FallbackFiles(req, encode), decode, license, readme);
      Join(repoName, "index.html") in tree && Join(repoName, "README.md") in tree
      && tree[Join(repoName, "index.html")] == Utf8Encode(FallbackIndexHtml(req.seed, ImageSource(req.attachments)))
      && tree[Join(repoName, "README.md")] == Utf8Encode(FallbackReadme(req.seed))
  {
    var files := FallbackFiles(req, encode);
    GeneratedFileLands(t, repoName, files, decode, license, readme, 0);
    GeneratedFileLands(t, repoName, files, decode, license, readme, 1);
  }
}
