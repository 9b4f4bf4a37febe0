/**
 What every command does to the state of one control connection and to the
 file system, as functions on values. The class `FTPConnection` carries out the
 same commands on its fields and is proved to agree with these functions.

 Everything the operating system decides arrives as the `Answers` of a step.
 */
module Session {
  import opened Sequences
  import opened Text
  import opened Paths
  import opened Accounts
  import opened Disk
  import opened Transfer

  // ----- State -----

  datatype VirtualHost = VirtualHost(
    hostname: string,
    root: string,
    enabled: bool,
    users: Option<map<string, User>>,
    maxSessions: int,
    quota: nat)

  // Fixed for the lifetime of a connection.
  datatype Config = Config(
    users: map<string, User>,
    hosts: Option<map<string, VirtualHost>>,
    tracksSessions: bool,
    maxSessionsPerUser: int,
    compression: bool,
    portRangeStart: int,
    portRangeEnd: int,
    fallbackHome: string,
    bufferSize: nat,
    maxRate: int,
    useSendfile: bool,
    useMmap: bool)

  datatype Mode = Stream | Compressed

  datatype State = State(
    active: bool,
    authenticated: bool,
    username: string,
    user: Option<User>,
    directory: string,
    host: Option<VirtualHost>,
    mode: Mode,
    resume: int,
    data: DataState,
    renameFrom: string,
    registered: bool)

  // The data connection: the active-mode target and the passive listener.
  datatype DataState = DataState(
    ip: string,
    port: int,
    activeEnabled: bool,
    listening: bool,
    epsvAll: bool)

  // A connection that has just been started.
  const INITIAL: State :=
    State(true, false, "", None, "/", None, Stream, 0, DataState("", 0, false, false, false), "", false)

  // ----- Inputs and outputs of a step -----

  datatype Pam = Unavailable | Rejected | Accepted(home: string)

  datatype DataChannel = Established | NoSocket | Unreachable

  // `unseen` holds the paths whose status the system cannot tell; `madeUpTo`
  // the length of the last ancestor made before making them fails; `written`
  // how many bytes of an upload can be written.
  datatype Answers = Answers(
    now: int,
    credentialOk: bool,
    pam: Pam,
    userSessions: nat,
    hostSessions: nat,
    socketOk: bool,
    bindable: set<int>,
    channel: DataChannel,
    systemOk: bool,
    unseen: set<Path>,
    madeUpTo: nat,
    written: nat,
    clock: Clock,
    kernel: Kernel,
    openForUpdate: bool,
    openForWrite: bool,
    zlibOk: bool,
    homeBytes: nat,
    chunks: seq<Chunk>,
    inflated: seq<Byte>,
    inflateOk: bool)

  datatype Command =
    | USER(name: string) | PASS(password: string) | QUIT | HOST(hostname: string) | ABOR
    | CWD(arg: string) | CDUP | LIST(arg: string) | MLSD(arg: string) | SIZE(arg: string)
    | PASV | EPSV(arg: string) | PORT(arg: string) | EPRT(arg: string)
    | MODE(arg: string) | REST(arg: string)
    | RETR(arg: string) | STOR(arg: string) | STOU(arg: string) | APPE(arg: string)
    | DELE(arg: string) | MKD(arg: string) | RMD(arg: string)
    | RNFR(arg: string) | RNTO(arg: string) | CHMOD(bits: string, arg: string)
    | Other(needsLogin: bool, code: int)

  // The final reply of a command, or an exception that no handler catches: it
  // leaves the thread of the connection and so ends the daemon, and with it
  // this session.
  datatype Reply = Code(code: int) | Uncaught

  // A file transfer on its way to open the data connection.
  datatype Opening = Opening(write: bool, path: string, mode: Mode, offset: int)

  datatype Outcome = Outcome(s: State, d: Tree, reply: Reply, opening: Option<Opening>)

  function Say(s: State, d: Tree, code: int): Outcome {
    Outcome(s, d, Code(code), None)
  }

  function Crash(s: State, d: Tree, opening: Option<Opening>): Outcome {
    Outcome(s.(active := false), d, Uncaught, opening)
  }

  // ----- Paths and permissions -----

  // `resolvePath`: an absolute path is virtual and rooted at the home directory.
  function Candidate(s: State, arg: string): Path {
    if IsAbsolute(arg) then
      Components(if s.user.Some? then s.user.value.home else "/") + RelativeComponents(arg)
    else
      Components(s.directory) + Components(arg)
  }

  function Resolve(s: State, arg: string): string {
    if arg == "" then s.directory else Render(Normalize(Candidate(s, arg)))
  }

  predicate WithinHome(s: State, path: string) {
    s.user.Some? && Within(Norm(path), Norm(s.user.value.home))
  }

  predicate WithinHostRoot(s: State, path: string) {
    s.host.Some? && s.host.value.root != "" ==> Within(Norm(path), Norm(s.host.value.root))
  }

  // `validatePath`.
  predicate Valid(s: State, path: string) {
    WithinHome(s, path) && WithinHostRoot(s, path)
  }

  predicate May(s: State, operation: string, arg: string) {
    s.user.Some? && Permits(s.user.value, operation, Resolve(s, arg))
  }

  // The path an argument names, in normal form.
  function Target(s: State, arg: string): Path {
    Norm(Resolve(s, arg))
  }

  // The permission and the path check, on one path.
  predicate Checked(s: State, operation: string, arg: string) {
    May(s, operation, arg) && Valid(s, Resolve(s, arg))
  }

  // ----- Login -----

  function UsersOf(cfg: Config, host: Option<VirtualHost>): map<string, User> {
    if host.Some? && host.value.users.Some? then host.value.users.value else cfg.users
  }

  function Lookup(cfg: Config, host: Option<VirtualHost>, name: string): Option<User> {
    var users := UsersOf(cfg, host);
    if name in users then Some(users[name]) else None
  }

  function DoUser(s: State, d: Tree, name: string): (o: Outcome)
    ensures o.s == s.(username := o.s.username, authenticated := o.s.authenticated)
    ensures o.d == d
  {
    Say(s.(username := name, authenticated := false), d, 331)
  }

  function PamHome(cfg: Config, found: Option<User>, home: string): string {
    if home != "" then home
    else if found.Some? then found.value.home
    else if cfg.fallbackHome != "" then cfg.fallbackHome
    else "/tmp"
  }

  // Whom a login attempt proves to be, if anyone.
  function Identify(cfg: Config, s: State, password: string, ans: Answers): Option<User> {
    var found := Lookup(cfg, s.host, s.username);
    if found.Some? && !Expired(found.value, ans.now) && ans.credentialOk then found
    else if ans.pam.Accepted? then
      Some(NewUser(s.username, password, PamHome(cfg, found, ans.pam.home)))
    else None
  }

  predicate SessionLimitReached(cfg: Config, s: State, ans: Answers) {
    && cfg.tracksSessions
    && (|| (cfg.maxSessionsPerUser > 0 && ans.userSessions >= cfg.maxSessionsPerUser)
        || (s.host.Some? && s.host.value.maxSessions > 0 && ans.hostSessions >= s.host.value.maxSessions))
  }

  function DoPass(cfg: Config, s: State, d: Tree, password: string, ans: Answers): (o: Outcome)
    ensures o.s == s.(user := o.s.user, authenticated := o.s.authenticated, directory := o.s.directory,
                     registered := o.s.registered)
    ensures o.d == d
  {
    if s.username == "" then Say(s, d, 503)
    else
      var identity := Identify(cfg, s, password, ans);
      match identity
      case None => Say(s.(user := Lookup(cfg, s.host, s.username)), d, 530)
      case Some(u) =>
        if SessionLimitReached(cfg, s, ans) then Say(s.(user := identity), d, 530)
        else Say(s.(user := identity, authenticated := true, directory := u.home,
                    registered := cfg.tracksSessions || s.registered), d, 230)
  }

  function DoHost(cfg: Config, s: State, d: Tree, name: string): (o: Outcome)
    ensures o.s == s.(host := o.s.host)
    ensures o.d == d
  {
    if name == "" then Say(s, d, 501)
    else match cfg.hosts
      case None => Say(s, d, 502)
      case Some(hosts) =>
        if name in hosts && hosts[name].enabled then Say(s.(host := Some(hosts[name])), d, 220)
        else Say(s, d, 550)
  }

  // ----- Directories -----

  function Enter(s: State, d: Tree, t: string): (o: Outcome)
    ensures o.s == s.(directory := o.s.directory)
    ensures o.d == d
  {
    if IsDirectory(d, Norm(t)) then Say(s.(directory := t), d, 250) else Say(s, d, 550)
  }

  // CWD asks for the status of the path in a way that throws when there is
  // none to be had, CDUP in a way that does not.
  function DoCwd(s: State, d: Tree, arg: string, ans: Answers): (o: Outcome)
    ensures o.d == d
  {
    var t := Resolve(s, arg);
    if !Valid(s, t) then Say(s, d, 550)
    else if Norm(t) in ans.unseen then Crash(s, d, None)
    else Enter(s, d, t)
  }

  function DoCdup(s: State, d: Tree, ans: Answers): (o: Outcome)
    ensures o.d == d
  {
    var t := Resolve(s, "..");
    if !Valid(s, t) || Norm(t) in ans.unseen then Say(s, d, 550) else Enter(s, d, t)
  }

  lemma MoveFrame(s: State, d: Tree, arg: string, ans: Answers)
    ensures var s' := DoCwd(s, d, arg, ans).s; s' == s.(directory := s'.directory, active := s'.active)
    ensures var s' := DoCdup(s, d, ans).s; s' == s.(directory := s'.directory)
  {
    hide Resolve, Valid, Norm, Enter;
  }

  // The size of a single file is read in a way that throws, a directory is
  // walked in a way that does not.
  function DoList(s: State, d: Tree, arg: string, ans: Answers): (o: Outcome)
    ensures o.s == s.(data := o.s.data, active := o.s.active)
    ensures o.d == d
  {
    var t := Resolve(s, arg);
    if !May(s, "list", "") || !Valid(s, t) then Say(s, d, 550)
    else if Norm(t) in ans.unseen then Crash(s, d, None)
    else if !Exists(d, Norm(t)) then Say(s, d, 550)
    else if Accepts(s.data, ans) && IsFile(d, Norm(t)) && !ans.systemOk then Crash(Attempted(s, ans), d, None)
    else Listed(s, d, ans)
  }

  function DoMlsd(s: State, d: Tree, arg: string, ans: Answers): (o: Outcome)
    ensures o.s == s.(data := o.s.data)
    ensures o.d == d
  {
    var t := Resolve(s, arg);
    if !May(s, "list", arg) || !Valid(s, t) || Norm(t) in ans.unseen || !IsDirectory(d, Norm(t)) then Say(s, d, 550)
    else Listed(s, d, ans)
  }

  function Listed(s: State, d: Tree, ans: Answers): Outcome {
    Say(Attempted(s, ans), d,
        if !Accepts(s.data, ans) then 425 else if ans.systemOk then 226 else 550)
  }

  // SIZE checks neither permission nor path.
  function DoSize(s: State, d: Tree, arg: string, ans: Answers): (o: Outcome)
    ensures o.s == s.(active := o.s.active)
    ensures o.d == d
  {
    var k := Norm(Resolve(s, arg));
    if k in ans.unseen then Crash(s, d, None)
    else if !IsFile(d, k) then Say(s, d, 550)
    else if ans.systemOk then Say(s, d, 213)
    else Crash(s, d, None)
  }

  // ----- The data channel -----

  function ClosePassive(c: DataState): DataState {
    c.(listening := false)
  }

  predicate ActiveUsable(c: DataState) {
    c.ip != "" && c.port > 0
  }

  // `acceptDataConnection`.
  predicate Accepts(c: DataState, ans: Answers) {
    ans.channel.Established? && (if c.activeEnabled then ActiveUsable(c) else c.listening)
  }

  // Active mode is used up by one attempt, except that a missing address, port
  // or socket leaves it as it was.
  function AfterAccept(c: DataState, ans: Answers): DataState {
    if c.activeEnabled && ActiveUsable(c) && !ans.channel.NoSocket?
    then c.(activeEnabled := false, ip := "", port := 0)
    else c
  }

  // The lowest port of the range that can be bound.
  function FirstBindable(start: int, end: int, bindable: set<int>): Option<int>
    decreases end - start
  {
    if start > end then None
    else if start in bindable then Some(start)
    else FirstBindable(start + 1, end, bindable)
  }

  function OpenPassive(cfg: Config, s: State, d: Tree, code: int, ans: Answers): Outcome {
    var free := FirstBindable(cfg.portRangeStart, cfg.portRangeEnd, ans.bindable);
    if ans.socketOk && free.Some?
    then Say(s.(data := s.data.(activeEnabled := false, listening := true)), d, code)
    else Say(s.(data := s.data.(activeEnabled := false, listening := false)), d, 425)
  }

  function DoPasv(cfg: Config, s: State, d: Tree, ans: Answers): (o: Outcome)
    ensures o.s == s.(data := o.s.data)
    ensures o.d == d
  {
    if s.data.epsvAll then Say(s, d, 501) else OpenPassive(cfg, s, d, 227, ans)
  }

  function DoEpsv(cfg: Config, s: State, d: Tree, arg: string, ans: Answers): (o: Outcome)
    ensures o.s == s.(data := o.s.data)
    ensures o.d == d
  {
    if Upper(arg) == "ALL" then Say(s.(data := s.data.(epsvAll := true)), d, 200)
    else if arg == "" || arg == "1" || arg == "2" then OpenPassive(cfg, s, d, 229, ans)
    else Say(s, d, 522)
  }

  // `std::getline` yields no piece after a trailing delimiter.
  function Lines(s: string, d: char): seq<string> {
    var parts := Split(s, d);
    if Last(parts) == "" then Front(parts) else parts
  }

  function ParseAll(parts: seq<string>): Option<seq<int>> {
    if parts == [] then Some([])
    else
      var rest := ParseAll(Front(parts));
      var v := Stoi(Last(parts));
      if rest.None? || v.None? then None else Some(rest.value + [v.value])
  }

  // `std::to_string` on a signed value.
  function Signed(n: int): string {
    if n < 0 then "-" + ToDecimal(-n) else ToDecimal(n)
  }

  function Dotted(p: seq<int>): string
    requires |p| >= 4
  {
    Signed(p[0]) + "." + Signed(p[1]) + "." + Signed(p[2]) + "." + Signed(p[3])
  }

  predicate PortInRange(port: int) {
    1024 <= port <= 65535
  }

  function Aim(c: DataState, ip: string, port: int): DataState {
    c.(ip := ip, port := port)
  }

  function Arm(c: DataState): DataState {
    c.(activeEnabled := true, listening := false)
  }

  // The address and port are stored before the port is checked.
  function DoPort(s: State, d: Tree, arg: string): (o: Outcome)
    ensures o.s == s.(data := o.s.data)
    ensures o.d == d
  {
    if s.data.epsvAll then Say(s, d, 501)
    else match ParseAll(Lines(arg, ','))
      case None => Say(s, d, 501)
      case Some(p) =>
        if |p| != 6 then Say(s, d, 501)
        else
          var aimed := Aim(s.data, Dotted(p), p[4] * 256 + p[5]);
          if PortInRange(p[4] * 256 + p[5]) then Say(s.(data := Arm(aimed)), d, 200)
          else Say(s.(data := aimed), d, 501)
  }

  // The fields of `|1|address|port|`, whatever the delimiter.
  function EprtFields(arg: string): Option<seq<string>> {
    if |arg| < 7 || arg[|arg| - 1] != arg[0] then None
    else
      var fields := Front(Split(arg[1..], arg[0]));
      if |fields| == 3 then Some(fields) else None
  }

  function DoEprt(s: State, d: Tree, arg: string): (o: Outcome)
    ensures o.s == s.(data := o.s.data)
    ensures o.d == d
  {
    if s.data.epsvAll then Say(s, d, 501)
    else match EprtFields(arg)
      case None => Say(s, d, 501)
      case Some(fields) =>
        if |fields| != 3 then Say(s, d, 501)
        else if fields[0] != "1" then Say(s, d, 522)
        else match Stoi(fields[2])
          case None => Say(s, d, 501)
          case Some(port) =>
            if PortInRange(port)
            then Say(s.(data := Arm(Aim(s.data, fields[1], port))), d, 200)
            else Say(s, d, 501)
  }

  // ----- Transfer parameters -----

  function DoMode(cfg: Config, s: State, d: Tree, arg: string): (o: Outcome)
    ensures o.s == s.(mode := o.s.mode)
    ensures o.d == d
  {
    var m := Upper(arg);
    if m == "S" || m == "STREAM" then Say(s.(mode := Stream), d, 200)
    else if m == "Z" && cfg.compression then Say(s.(mode := Compressed), d, 200)
    else Say(s, d, 504)
  }

  // The parsed value becomes a signed 64-bit stream position.
  function Position(v: nat): int {
    if v >= TWO_63 then v - TWO_64 else v
  }

  function DoRest(s: State, d: Tree, arg: string): (o: Outcome)
    ensures o.s == s.(resume := o.s.resume)
    ensures o.d == d
  {
    if s.mode.Compressed? then Say(s, d, 550)
    else match Stoull(arg, 10)
      case None => Say(s, d, 501)
      case Some(v) => Say(s.(resume := Position(v)), d, 350)
  }

  // ----- Transfers -----

  // A compressed transfer does not restart, and needs compression switched on.
  predicate RestartRefused(s: State) {
    s.mode.Compressed? && s.resume > 0
  }

  predicate CompressionRefused(cfg: Config, s: State) {
    s.mode.Compressed? && !cfg.compression
  }

  // The state once the data connection has been asked for, and the state a
  // finished transfer leaves.
  function Attempted(s: State, ans: Answers): State {
    s.(data := AfterAccept(s.data, ans))
  }

  function Finished(s: State, ans: Answers): State {
    s.(data := AfterAccept(s.data, ans), resume := 0)
  }

  // How a download ends once the data connection is up, given the file size.
  function FileReply(s: State, size: nat, ans: Answers): (code: int) {
    if !ans.systemOk then 550
    else if s.resume > 0 && s.resume >= size then 226
    else if s.resume < 0 then 550
    else if s.mode.Compressed? && !ans.zlibOk then 426
    else 226
  }

  function RetrReply(s: State, size: nat, ans: Answers): (code: int) {
    if !Accepts(s.data, ans) then 425 else FileReply(s, size, ans)
  }

  // Once the data connection is up, a stream-mode download has something to
  // start on, or an empty file.
  predicate Downloads(s: State, size: nat, ans: Answers) {
    ans.systemOk && s.mode.Stream? && (s.resume == 0 || 0 < s.resume < size)
  }

  // What the client receives of a file and whether that counts as complete.
  ghost predicate Fetched(cfg: Config, s: State, content: seq<Byte>, ans: Answers, wire: seq<Byte>, complete: bool) {
    if Downloads(s, |content|, ans) then
      && Delivers(content, s.resume, cfg.useSendfile, cfg.useMmap, wire, complete)
      && (!cfg.useMmap ==> wire <= content[s.resume..] && (complete <==> wire == content[s.resume..]))
      && (Willing(ans.kernel, BufferSize(cfg.bufferSize)) ==> complete && wire == content[s.resume..])
    else wire == [] && !complete
  }

  function FetchAt(s: State, d: Tree, t: string, ans: Answers): (o: Outcome)
    requires IsFile(d, Norm(t))
    ensures o.s == s.(data := o.s.data, resume := o.s.resume)
    ensures o.d == d
  {
    var code := RetrReply(s, |d[Norm(t)].content|, ans);
    Outcome(if code == 226 then Finished(s, ans) else Attempted(s, ans), d,
            Code(code), Some(Opening(false, t, s.mode, s.resume)))
  }

  function DoRetr(cfg: Config, s: State, d: Tree, arg: string, ans: Answers): (o: Outcome)
    ensures o.s == s.(data := o.s.data, resume := o.s.resume, active := o.s.active)
    ensures o.d == d
  {
    var t := Resolve(s, arg);
    var k := Norm(t);
    if !May(s, "read", arg) || !Valid(s, t) then Say(s, d, 550)
    else if k in ans.unseen then Crash(s, d, None)
    else if !IsFile(d, k) then Say(s, d, 550)
    else if RestartRefused(s) then Say(s.(resume := 0), d, 550)
    else if CompressionRefused(cfg, s) then Say(s, d, 504)
    else FetchAt(s, d, t, ans)
  }

  function EffectiveQuota(s: State): nat {
    var own := if s.user.Some? then s.user.value.quota else 0;
    var shared := if s.host.Some? then s.host.value.quota else 0;
    if shared == 0 then own
    else if own == 0 then shared
    else if own < shared then own else shared
  }

  predicate OverQuota(s: State, ans: Answers) {
    EffectiveQuota(s) > 0 && s.user.Some? && ans.homeBytes >= EffectiveQuota(s)
  }

  function ModeAt(d: Tree, k: Path): nat {
    if k in d then d[k].mode else FILE_MODE
  }

  // The target is opened for update when resuming inside an existing file,
  // otherwise, or if that fails, truncated.
  predicate OpensForUpdate(s: State, d: Tree, k: Path, ans: Answers) {
    s.resume > 0 && IsFile(d, k) && ans.openForUpdate
  }

  predicate OpensTruncated(d: Tree, k: Path, ans: Answers) {
    !IsDirectory(d, k) && ans.openForWrite
  }

  // The bytes that come in, those of them that reach the file, and whether the
  // upload counts as complete.
  function Received(s: State, ans: Answers): seq<Byte> {
    if s.mode.Stream? then Flatten(ans.chunks) else if ans.zlibOk then ans.inflated else []
  }

  function Written(s: State, ans: Answers): seq<Byte> {
    Kept(Received(s, ans), ans.written)
  }

  predicate UploadOk(s: State, ans: Answers) {
    s.mode.Stream? || (ans.zlibOk && ans.inflateOk)
  }

  // Only a compressed upload that never got going keeps the restart offset.
  function Uploaded(s: State, ans: Answers): State {
    if s.mode.Compressed? && !ans.zlibOk then Attempted(s, ans) else Finished(s, ans)
  }

  function StoredContent(s: State, d: Tree, k: Path, ans: Answers): seq<Byte> {
    if OpensForUpdate(s, d, k, ans) then WriteAt(d[k].content, s.resume, Written(s, ans))
    else WriteAt([], 0, Written(s, ans))
  }

  // Receiving into the opened target; `d` already holds its parent directory.
  function StoreInto(s: State, d: Tree, k: Path, ans: Answers, opening: Option<Opening>): Outcome {
    if OpensForUpdate(s, d, k, ans) || OpensTruncated(d, k, ans) then
      Outcome(Uploaded(s, ans), d[k := File(StoredContent(s, d, k, ans), ModeAt(d, k))],
              Code(if UploadOk(s, ans) then 226 else 426), opening)
    else Outcome(Attempted(s, ans), d, Code(550), opening)
  }

  predicate CannotMakeAncestors(d: Tree, k: Path, ans: Answers) {
    AncestorIsFile(d, k) || (MissingAncestors(d, k) != {} && !ans.systemOk)
  }

  // Making the ancestors stops at the first that cannot be made; none is
  // tried when a file is in the way.
  function AncestorsLeft(d: Tree, k: Path, ans: Answers): Tree {
    if AncestorIsFile(d, k) then d else MakeAncestorsUpTo(d, k, ans.madeUpTo)
  }

  // A restarted upload asks for the status of its target.
  predicate StatusThrows(s: State, k: Path, ans: Answers) {
    s.resume > 0 && k in ans.unseen
  }

  function StoreAt(s: State, d: Tree, t: string, ans: Answers): Outcome {
    var opening := Some(Opening(true, t, s.mode, s.resume));
    var k := Norm(t);
    if !Accepts(s.data, ans) then Outcome(Attempted(s, ans), d, Code(425), opening)
    else if CannotMakeAncestors(d, k, ans) then Crash(Attempted(s, ans), AncestorsLeft(d, k, ans), opening)
    else if StatusThrows(s, k, ans) then Crash(Attempted(s, ans), MakeAncestors(d, k), opening)
    else StoreInto(s, MakeAncestors(d, k), k, ans, opening)
  }

  function DoStor(cfg: Config, s: State, d: Tree, arg: string, ans: Answers): Outcome {
    if !May(s, "write", arg) || !Valid(s, Resolve(s, arg)) then Say(s, d, 550)
    else if OverQuota(s, ans) then Say(s, d, 552)
    else if RestartRefused(s) then Say(s.(resume := 0), d, 550)
    else if CompressionRefused(cfg, s) then Say(s, d, 504)
    else StoreAt(s, d, Resolve(s, arg), ans)
  }

  // The last component of a file name, or "ftpd" without one.
  function UniqueBase(arg: string): string {
    if arg == "" then "ftpd" else Last(Split(arg, '/'))
  }

  function UniqueName(base: string, attempt: nat): string {
    base + "." + ToDecimal(attempt)
  }

  const MAX_ATTEMPTS := 10000

  // A name whose status cannot be told counts as free.
  predicate Taken(s: State, d: Tree, base: string, attempt: nat, ans: Answers) {
    var k := Norm(s.directory + "/" + UniqueName(base, attempt));
    Exists(d, k) && k !in ans.unseen
  }

  function FirstUnused(s: State, d: Tree, base: string, attempt: nat, ans: Answers): (r: Option<nat>)
    ensures r.Some? ==> !Taken(s, d, base, r.value, ans)
    decreases MAX_ATTEMPTS - attempt
  {
    if attempt >= MAX_ATTEMPTS then None
    else if !Taken(s, d, base, attempt, ans) then Some(attempt)
    else FirstUnused(s, d, base, attempt + 1, ans)
  }

  function DoStou(cfg: Config, s: State, d: Tree, arg: string, ans: Answers): Outcome {
    var base := UniqueBase(arg);
    match FirstUnused(s, d, base, 0, ans)
    case None => Say(s, d, 452)
    case Some(n) => DoStor(cfg, s.(resume := 0), d, UniqueName(base, n), ans)
  }

  predicate ParentIsDirectory(d: Tree, k: Path) {
    |k| > 1 ==> IsDirectory(d, Front(k))
  }

  predicate OpensForAppend(d: Tree, k: Path, ans: Answers) {
    ans.openForWrite && !IsDirectory(d, k) && (Exists(d, k) || ParentIsDirectory(d, k))
  }

  function ContentAt(d: Tree, k: Path): seq<Byte> {
    if IsFile(d, k) then d[k].content else []
  }

  function AppendAt(s: State, d: Tree, t: string, ans: Answers): Outcome {
    var k := Norm(t);
    var opening := Some(Opening(true, t, s.mode, s.resume));
    if !Accepts(s.data, ans) then Outcome(Attempted(s, ans), d, Code(425), opening)
    else if k in ans.unseen then Crash(Attempted(s, ans), d, opening)
    else if !OpensForAppend(d, k, ans) then Outcome(Attempted(s, ans), d, Code(550), opening)
    else
      Outcome(Finished(s, ans), d[k := File(ContentAt(d, k) + Kept(Flatten(ans.chunks), ans.written), ModeAt(d, k))],
              Code(226), opening)
  }

  function DoAppe(s: State, d: Tree, arg: string, ans: Answers): Outcome {
    var t := Resolve(s, arg);
    if !May(s, "write", arg) || !Valid(s, t) || s.mode.Compressed? then Say(s, d, 550)
    else AppendAt(s, d, t, ans)
  }

  // ----- Changing files and directories -----

  function DoDele(s: State, d: Tree, arg: string, ans: Answers): Outcome {
    var t := Resolve(s, arg);
    var k := Norm(t);
    if !May(s, "write", arg) || !Valid(s, t) then Say(s, d, 550)
    else if k in ans.unseen then Crash(s, d, None)
    else if !IsFile(d, k) then Say(s, d, 550)
    else if ans.systemOk then Say(s, d - {k}, 250)
    else Crash(s, d, None)
  }

  function DoMkd(s: State, d: Tree, arg: string, ans: Answers): Outcome {
    var t := Resolve(s, arg);
    var k := Norm(t);
    if !May(s, "write", arg) || !Valid(s, t) || IsDirectory(d, k) then Say(s, d, 550)
    else if Exists(d, k) || !ParentIsDirectory(d, k) || !ans.systemOk then Crash(s, d, None)
    else Say(s, d[k := Directory(DIRECTORY_MODE)], 257)
  }

  function DoRmd(s: State, d: Tree, arg: string, ans: Answers): Outcome {
    var t := Resolve(s, arg);
    var k := Norm(t);
    if !May(s, "write", arg) || !Valid(s, t) then Say(s, d, 550)
    else if k in ans.unseen then Crash(s, d, None)
    else if !IsDirectory(d, k) then Say(s, d, 550)
    else if IsEmptyDirectory(d, k) && ans.systemOk then Say(s, d - {k}, 250)
    else Crash(s, d, None)
  }

  function DoRnfr(s: State, d: Tree, arg: string, ans: Answers): (o: Outcome)
    ensures o.s == s.(renameFrom := o.s.renameFrom, active := o.s.active)
    ensures o.d == d
  {
    var t := Resolve(s, arg);
    if !May(s, "write", arg) || !Valid(s, t) then Say(s, d, 550)
    else if Norm(t) in ans.unseen then Crash(s, d, None)
    else if !Exists(d, Norm(t)) then Say(s, d, 550)
    else Say(s.(renameFrom := t), d, 350)
  }

  // What `rename` itself demands of its operands.
  predicate CanRename(d: Tree, from: Path, to: Path) {
    Exists(d, from) && ParentIsDirectory(d, to) && !Within(to, from)
  }

  function DoRnto(s: State, d: Tree, arg: string, ans: Answers): Outcome {
    if s.renameFrom == "" then Say(s, d, 503)
    else
      var t := Resolve(s, arg);
      var from, to := Norm(s.renameFrom), Norm(t);
      var s' := s.(renameFrom := "");
      if !May(s, "write", arg) || !Valid(s, t) then Say(s', d, 550)
      else if to in ans.unseen then Crash(s, d, None)
      else if Exists(d, to) then Say(s', d, 553)
      else if CanRename(d, from, to) && ans.systemOk then Say(s', Move(d, from, to), 250)
      else Say(s', d, 550)
  }

  function DoChmod(s: State, d: Tree, bits: string, arg: string, ans: Answers): Outcome {
    if bits == "" || arg == "" then Say(s, d, 501)
    else
      var t := Resolve(s, arg);
      var k := Norm(t);
      if !May(s, "write", arg) || !Valid(s, t) then Say(s, d, 550)
      else match Stoull(bits, 8)
        case None => Say(s, d, 501)
        case Some(v) =>
          if Exists(d, k) && ans.systemOk then Say(s, d[k := d[k].(mode := v % 4096)], 200)
          else Say(s, d, 550)
  }

  // ----- The dispatcher -----

  // Commands served before login.
  predicate Public(cmd: Command) {
    || cmd.USER? || cmd.PASS? || cmd.QUIT? || cmd.HOST? || cmd.ABOR?
    || (cmd.Other? && !cmd.needsLogin)
  }

  // The commands that can change the file system.
  predicate Writes(cmd: Command) {
    || cmd.STOR? || cmd.STOU? || cmd.APPE? || cmd.DELE? || cmd.MKD? || cmd.RMD? || cmd.RNTO? || cmd.CHMOD?
  }

  function DoWrite(cfg: Config, s: State, d: Tree, cmd: Command, ans: Answers): (o: Outcome)
    requires Writes(cmd)
  {
    match cmd
    case STOR(arg) => DoStor(cfg, s, d, arg, ans)
    case STOU(arg) => DoStou(cfg, s, d, arg, ans)
    case APPE(arg) => DoAppe(s, d, arg, ans)
    case DELE(arg) => DoDele(s, d, arg, ans)
    case MKD(arg) => DoMkd(s, d, arg, ans)
    case RMD(arg) => DoRmd(s, d, arg, ans)
    case RNTO(arg) => DoRnto(s, d, arg, ans)
    case CHMOD(bits, arg) => DoChmod(s, d, bits, arg, ans)
  }

  // Login, directories and listings.
  predicate OfSession(cmd: Command) {
    || cmd.USER? || cmd.PASS? || cmd.QUIT? || cmd.HOST? || cmd.ABOR?
    || cmd.CWD? || cmd.CDUP? || cmd.LIST? || cmd.MLSD? || cmd.SIZE?
  }

  function DoSession(cfg: Config, s: State, d: Tree, cmd: Command, ans: Answers): (o: Outcome)
    requires OfSession(cmd)
    ensures o.d == d
  {
    match cmd
    case USER(name) => DoUser(s, d, name)
    case PASS(password) => DoPass(cfg, s, d, password, ans)
    case QUIT => Say(s.(active := false), d, 221)
    case HOST(name) => DoHost(cfg, s, d, name)
    case ABOR => Say(s.(data := ClosePassive(s.data)), d, 226)
    case CWD(arg) => DoCwd(s, d, arg, ans)
    case CDUP => DoCdup(s, d, ans)
    case LIST(arg) => DoList(s, d, arg, ans)
    case MLSD(arg) => DoMlsd(s, d, arg, ans)
    case SIZE(arg) => DoSize(s, d, arg, ans)
  }

  // Transfer parameters, downloads, and commands without effect on the state.
  function DoSetup(cfg: Config, s: State, d: Tree, cmd: Command, ans: Answers): (o: Outcome)
    requires !OfSession(cmd) && !Writes(cmd)
    ensures o.d == d
  {
    match cmd
    case PASV => DoPasv(cfg, s, d, ans)
    case EPSV(arg) => DoEpsv(cfg, s, d, arg, ans)
    case PORT(arg) => DoPort(s, d, arg)
    case EPRT(arg) => DoEprt(s, d, arg)
    case MODE(arg) => DoMode(cfg, s, d, arg)
    case REST(arg) => DoRest(s, d, arg)
    case RETR(arg) => DoRetr(cfg, s, d, arg, ans)
    case RNFR(arg) => DoRnfr(s, d, arg, ans)
    case Other(needsLogin, code) => Say(s, d, code)
  }

  function DoOther(cfg: Config, s: State, d: Tree, cmd: Command, ans: Answers): (o: Outcome)
    requires !Writes(cmd)
    ensures o.d == d
  {
    if OfSession(cmd) then DoSession(cfg, s, d, cmd, ans) else DoSetup(cfg, s, d, cmd, ans)
  }

  function Step(cfg: Config, s: State, d: Tree, cmd: Command, ans: Answers): Outcome {
    if !Public(cmd) && !s.authenticated then Say(s, d, 530)
    else if Writes(cmd) then DoWrite(cfg, s, d, cmd, ans)
    else DoOther(cfg, s, d, cmd, ans)
  }

  // ----- Which commands can change which part of the state -----

  // A transfer uses the data channel at most once and at most clears the offset.
  predicate TransferFrame(s: State, s': State, ans: Answers) {
    && (s'.data == s.data || s'.data == AfterAccept(s.data, ans))
    && (s'.resume == s.resume || s'.resume == 0)
  }

  lemma StoreIntoFrame(s: State, d: Tree, k: Path, ans: Answers, opening: Option<Opening>)
    ensures var s' := StoreInto(s, d, k, ans, opening).s;
      && s' == s.(data := s'.data, resume := s'.resume)
      && TransferFrame(s, s', ans)
  {
    hide StoredContent, AfterAccept, OpensForUpdate, OpensTruncated, ModeAt, UploadOk;
  }

  lemma StoreFrame(s: State, d: Tree, t: string, ans: Answers)
    ensures var s' := StoreAt(s, d, t, ans).s;
      && s' == s.(data := s'.data, resume := s'.resume, active := s'.active)
      && TransferFrame(s, s', ans)
  {
    hide Norm, MissingAncestors, MakeAncestors, AncestorsLeft, CannotMakeAncestors, StoredContent;
    hide AfterAccept, Accepts, StoreInto;
    StoreIntoFrame(s, MakeAncestors(d, Norm(t)), Norm(t), ans, Some(Opening(true, t, s.mode, s.resume)));
  }

  lemma StorFrame(cfg: Config, s: State, d: Tree, arg: string, ans: Answers)
    ensures var s' := DoStor(cfg, s, d, arg, ans).s;
      && s' == s.(data := s'.data, resume := s'.resume, active := s'.active)
      && TransferFrame(s, s', ans)
  {
    hide Resolve, May, Valid, StoreAt, EffectiveQuota, AfterAccept;
    StoreFrame(s, d, Resolve(s, arg), ans);
  }

  lemma StouFrame(cfg: Config, s: State, d: Tree, arg: string, ans: Answers)
    ensures var s' := DoStou(cfg, s, d, arg, ans).s;
      && s' == s.(data := s'.data, resume := s'.resume, active := s'.active)
      && TransferFrame(s, s', ans)
  {
    hide DoStor, FirstUnused, UniqueBase, UniqueName;
    var n := FirstUnused(s, d, UniqueBase(arg), 0, ans);
    if n.Some? {
      StorFrame(cfg, s.(resume := 0), d, UniqueName(UniqueBase(arg), n.value), ans);
    }
  }

  lemma AppendFrame(s: State, d: Tree, t: string, ans: Answers)
    ensures var s' := AppendAt(s, d, t, ans).s;
      && s' == s.(data := s'.data, resume := s'.resume, active := s'.active)
      && TransferFrame(s, s', ans)
  {
    hide Norm, AfterAccept, Accepts, OpensForAppend, ContentAt, ModeAt, Kept, Flatten;
  }

  lemma AppeFrame(s: State, d: Tree, arg: string, ans: Answers)
    ensures var s' := DoAppe(s, d, arg, ans).s;
      && s' == s.(data := s'.data, resume := s'.resume, active := s'.active)
      && TransferFrame(s, s', ans)
  {
    hide Norm, Resolve, May, Valid, AppendAt, AfterAccept;
    AppendFrame(s, d, Resolve(s, arg), ans);
  }

  lemma RntoFrame(s: State, d: Tree, arg: string, ans: Answers)
    ensures var s' := DoRnto(s, d, arg, ans).s;
            s' == s.(renameFrom := s'.renameFrom, active := s'.active)
            && (s'.renameFrom == s.renameFrom || s'.renameFrom == "")
  {
    hide Norm, Resolve, May, Valid, CanRename, Move;
  }

  lemma ChangeFrame(cfg: Config, s: State, d: Tree, cmd: Command, ans: Answers)
    requires cmd.DELE? || cmd.MKD? || cmd.RMD? || cmd.CHMOD?
    ensures var s' := DoWrite(cfg, s, d, cmd, ans).s; s' == s.(active := s'.active)
  {
    hide Norm, Resolve, May, Valid, Stoull, DoStor, DoStou, DoAppe, DoRnto;
  }

  lemma WriteFrame(cfg: Config, s: State, d: Tree, cmd: Command, ans: Answers)
    requires Writes(cmd)
    ensures var s' := DoWrite(cfg, s, d, cmd, ans).s;
      && s' == s.(data := s'.data, resume := s'.resume, active := s'.active, renameFrom := s'.renameFrom)
      && (s'.renameFrom == s.renameFrom || s'.renameFrom == "")
      && TransferFrame(s, s', ans)
  {
    hide DoStor, DoStou, DoAppe, DoRnto, DoDele, DoMkd, DoRmd, DoChmod;
    match cmd
    case STOR(arg) => StorFrame(cfg, s, d, arg, ans);
    case STOU(arg) => StouFrame(cfg, s, d, arg, ans);
    case APPE(arg) => AppeFrame(s, d, arg, ans);
    case RNTO(arg) => RntoFrame(s, d, arg, ans);
    case _ => ChangeFrame(cfg, s, d, cmd, ans);
  }

  lemma OtherFrame(cfg: Config, s: State, d: Tree, cmd: Command, ans: Answers)
    requires !Writes(cmd)
    ensures var s' := DoOther(cfg, s, d, cmd, ans).s;
      && (!cmd.USER? ==> s'.username == s.username)
      && (!cmd.PASS? ==> s'.user == s.user && s'.registered == s.registered)
      && (!cmd.PASS? && !cmd.USER? ==> s'.authenticated == s.authenticated)
      && (!cmd.HOST? ==> s'.host == s.host)
      && (!cmd.PASS? && !cmd.CWD? && !cmd.CDUP? ==> s'.directory == s.directory)
      && (!cmd.MODE? ==> s'.mode == s.mode)
      && (!cmd.RNFR? ==> s'.renameFrom == s.renameFrom)
  {
    hide DoUser, DoPass, DoHost, DoCwd, DoCdup, DoList, DoMlsd, DoSize, DoPasv, DoEpsv, DoPort, DoEprt;
    hide DoMode, DoRest, DoRetr, DoRnfr;
    if cmd.CWD? {
      MoveFrame(s, d, cmd.arg, ans);
    } else if cmd.CDUP? {
      MoveFrame(s, d, "..", ans);
    }
  }

  lemma StepFrame(cfg: Config, s: State, d: Tree, cmd: Command, ans: Answers)
    ensures var s' := Step(cfg, s, d, cmd, ans).s;
      && (!cmd.USER? ==> s'.username == s.username)
      && (!cmd.PASS? ==> s'.user == s.user && s'.registered == s.registered)
      && (!cmd.PASS? && !cmd.USER? ==> s'.authenticated == s.authenticated)
      && (!cmd.HOST? ==> s'.host == s.host)
      && (!cmd.PASS? && !cmd.CWD? && !cmd.CDUP? ==> s'.directory == s.directory)
      && (!cmd.MODE? ==> s'.mode == s.mode)
      && (!cmd.RNFR? ==> s'.renameFrom == s.renameFrom || s'.renameFrom == "")
  {
    hide DoWrite, DoOther;
    if Writes(cmd) {
      WriteFrame(cfg, s, d, cmd, ans);
    } else {
      OtherFrame(cfg, s, d, cmd, ans);
    }
  }

  datatype Event = Event(cmd: Command, ans: Answers)

  datatype World = World(s: State, d: Tree)

  // A whole run: commands are served until the connection ends.
  function Run(cfg: Config, w: World, events: seq<Event>): World
    decreases |events|
  {
    if events == [] || !w.s.active then w
    else
      var o := Step(cfg, w.s, w.d, events[0].cmd, events[0].ans);
      Run(cfg, World(o.s, o.d), events[1..])
  }
}
