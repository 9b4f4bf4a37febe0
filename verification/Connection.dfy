/**
 The control connection as the server runs it: one object whose fields the
 command handlers update in place. Every handler is proved to have exactly the
 effect the functions of `Session` describe.
 */
module Connection {
  import opened Sequences
  import opened Text
  import opened Paths
  import opened Accounts
  import opened Disk
  import opened Transfer
  import opened Session

  class FTPConnection {
    const cfg: Config
    var active: bool
    var authenticated: bool
    var username: string
    var currentUser: Option<User>
    var currentDirectory: string
    var currentVirtualHost: Option<VirtualHost>
    var transferMode: Mode
    var resumePosition: int
    var activeModeIp: string
    var activeModePort: int
    var activeModeEnabled: bool
    var passiveListening: bool
    var epsvAll: bool
    var renameFromPath: string
    var sessionRegistered: bool
    var disk: Tree

    constructor (cfg: Config, disk: Tree)
      ensures Abs() == INITIAL.(active := false) && this.disk == disk && this.cfg == cfg
    {
      this.cfg := cfg;
      this.disk := disk;
      active, authenticated, username, currentUser := false, false, "", None;
      currentDirectory, currentVirtualHost := "/", None;
      transferMode, resumePosition := Stream, 0;
      activeModeIp, activeModePort, activeModeEnabled := "", 0, false;
      passiveListening, epsvAll := false, false;
      renameFromPath, sessionRegistered := "", false;
    }

    // The thread of the connection begins to serve commands.
    method Start()
      modifies this`active
      ensures Abs() == old(Abs()).(active := true) && disk == old(disk)
    {
      if active {
        return;
      }
      active := true;
    }

    ghost function Channel(): DataState
      reads this
    {
      DataState(activeModeIp, activeModePort, activeModeEnabled, passiveListening, epsvAll)
    }

    ghost function Abs(): State
      reads this
    {
      State(active, authenticated, username, currentUser, currentDirectory, currentVirtualHost,
            transferMode, resumePosition, Channel(), renameFromPath, sessionRegistered)
    }

    // ----- Path and permission utilities -----

    method ResolvePath(path: string) returns (r: string)
      ensures r == Resolve(Abs(), path)
    {
      if path == "" {
        return currentDirectory;
      }
      var candidate: Path;
      if path[0] == '/' {
        var home := if currentUser.Some? then currentUser.value.home else "/";
        candidate := Components(home) + RelativeComponents(path);
      } else {
        candidate := Components(currentDirectory) + Components(path);
      }
      return Render(Normalize(candidate));
    }

    method IsPathWithinHome(path: string) returns (r: bool)
      ensures r == WithinHome(Abs(), path)
    {
      if currentUser.None? {
        return false;
      }
      r := IsWithin(Norm(path), Norm(currentUser.value.home));
    }

    method ValidatePath(path: string) returns (r: bool)
      ensures r == Valid(Abs(), path)
    {
      hide Norm;
      if currentUser.None? {
        return false;
      }
      var atHome := IsPathWithinHome(path);
      if !atHome {
        return false;
      }
      if currentVirtualHost.Some? {
        var root := currentVirtualHost.value.root;
        if root != "" {
          var inside := IsWithin(Norm(path), Norm(root));
          if !inside {
            return false;
          }
        }
      }
      return true;
    }

    method MayAccess(operation: string, path: string) returns (r: bool)
      ensures r == May(Abs(), operation, path)
    {
      hide Norm, Resolve, Permits;
      if currentUser.None? {
        return false;
      }
      var resolved := ResolvePath(path);
      r := HasPermission(currentUser.value, operation, resolved);
    }

    // ----- Data connection management -----

    method CloseDataSocket()
      modifies this`passiveListening
      ensures !passiveListening
    {
      passiveListening := false;
    }

    // Tries the ports of the configured range in order.
    method CreatePassiveDataSocket(ans: Answers) returns (port: Option<int>)
      modifies this`passiveListening
      ensures port == if ans.socketOk
                      then FirstBindable(cfg.portRangeStart, cfg.portRangeEnd, ans.bindable) else None
      ensures passiveListening == port.Some?
    {
      CloseDataSocket();
      if !ans.socketOk {
        return None;
      }
      passiveListening := true;
      var candidate := cfg.portRangeStart;
      while candidate <= cfg.portRangeEnd
        invariant passiveListening
        invariant FirstBindable(cfg.portRangeStart, cfg.portRangeEnd, ans.bindable)
               == FirstBindable(candidate, cfg.portRangeEnd, ans.bindable)
      {
        if candidate in ans.bindable {
          return Some(candidate);
        }
        candidate := candidate + 1;
      }
      passiveListening := false;
      return None;
    }

    method ConnectActiveDataSocket(ans: Answers) returns (ok: bool)
      requires activeModeEnabled
      modifies this`activeModeEnabled, this`activeModeIp, this`activeModePort
      ensures Channel() == AfterAccept(old(Channel()), ans)
      ensures ok == Accepts(old(Channel()), ans)
    {
      if activeModeIp == "" || activeModePort <= 0 {
        return false;
      }
      if ans.channel.NoSocket? {
        return false;
      }
      activeModeEnabled := false;
      activeModeIp := "";
      activeModePort := 0;
      return ans.channel.Established?;
    }

    method AcceptDataConnection(ans: Answers) returns (ok: bool)
      modifies this`activeModeEnabled, this`activeModeIp, this`activeModePort
      ensures Channel() == AfterAccept(old(Channel()), ans)
      ensures ok == Accepts(old(Channel()), ans)
    {
      if activeModeEnabled {
        ok := ConnectActiveDataSocket(ans);
        return;
      }
      if !passiveListening {
        return false;
      }
      return ans.channel.Established?;
    }

    // ----- Login -----

    method HandleUSER(name: string) returns (r: Reply)
      modifies this`username, this`authenticated
      ensures Outcome(Abs(), disk, r, None) == DoUser(old(Abs()), old(disk), name)
    {
      username := name;
      authenticated := false;
      r := Code(331);
    }

    // Looks the user up and checks the credential, then asks PAM.
    method Authenticate(password: string, ans: Answers) returns (success: bool)
      modifies this`currentUser
      ensures var identity := Identify(cfg, old(Abs()), password, ans);
        && success == identity.Some?
        && currentUser == if success then identity else Lookup(cfg, currentVirtualHost, username)
    {
      success := false;
      var users := if currentVirtualHost.Some? && currentVirtualHost.value.users.Some?
                   then currentVirtualHost.value.users.value else cfg.users;
      currentUser := if username in users then Some(users[username]) else None;
      if currentUser.Some? && !Expired(currentUser.value, ans.now) && ans.credentialOk {
        success := true;
      } else if ans.pam.Accepted? {
        var home := ans.pam.home;
        if home == "" {
          if currentUser.Some? {
            home := currentUser.value.home;
          } else if cfg.fallbackHome != "" {
            home := cfg.fallbackHome;
          } else {
            home := "/tmp";
          }
        }
        currentUser := Some(NewUser(username, password, home));
        success := true;
      }
    }

    // The session limits of the user and of the virtual host.
    method TooManySessions(ans: Answers) returns (reached: bool)
      ensures reached == SessionLimitReached(cfg, Abs(), ans)
    {
      if cfg.tracksSessions {
        if cfg.maxSessionsPerUser > 0 && ans.userSessions >= cfg.maxSessionsPerUser {
          return true;
        }
        if currentVirtualHost.Some? && currentVirtualHost.value.maxSessions > 0
           && ans.hostSessions >= currentVirtualHost.value.maxSessions {
          return true;
        }
      }
      return false;
    }

    method HandlePASS(password: string, ans: Answers) returns (r: Reply)
      modifies this`currentUser, this`authenticated, this`currentDirectory, this`sessionRegistered
      ensures Outcome(Abs(), disk, r, None) == DoPass(cfg, old(Abs()), old(disk), password, ans)
    {
      hide Norm, Identify, Lookup;
      if username == "" {
        return Code(503);
      }
      var success := Authenticate(password, ans);
      if success && currentUser.Some? {
        var reached := TooManySessions(ans);
        if reached {
          return Code(530);
        }
        authenticated := true;
        currentDirectory := currentUser.value.home;
        if cfg.tracksSessions {
          sessionRegistered := true;
        }
        return Code(230);
      }
      return Code(530);
    }

    method HandleQUIT() returns (r: Reply)
      modifies this`active
      ensures Abs() == old(Abs()).(active := false) && disk == old(disk) && r == Code(221)
    {
      active := false;
      r := Code(221);
    }

    method HandleHOST(name: string) returns (r: Reply)
      modifies this`currentVirtualHost
      ensures Outcome(Abs(), disk, r, None) == DoHost(cfg, old(Abs()), old(disk), name)
    {
      if name == "" {
        return Code(501);
      }
      if cfg.hosts.None? {
        return Code(502);
      }
      if name !in cfg.hosts.value || !cfg.hosts.value[name].enabled {
        return Code(550);
      }
      currentVirtualHost := Some(cfg.hosts.value[name]);
      return Code(220);
    }

    // ----- Directories -----

    method HandleCWD(path: string, ans: Answers) returns (r: Reply)
      modifies this`currentDirectory, this`active
      ensures Outcome(Abs(), disk, r, None) == DoCwd(old(Abs()), old(disk), path, ans)
    {
      hide Norm, Resolve, Valid;
      var newPath := ResolvePath(path);
      var valid := ValidatePath(newPath);
      if !valid {
        return Code(550);
      }
      if Norm(newPath) in ans.unseen {
        active := false;
        return Uncaught;
      }
      if IsDirectory(disk, Norm(newPath)) {
        currentDirectory := newPath;
        return Code(250);
      }
      return Code(550);
    }

    method HandleCDUP(ans: Answers) returns (r: Reply)
      modifies this`currentDirectory
      ensures Outcome(Abs(), disk, r, None) == DoCdup(old(Abs()), old(disk), ans)
    {
      hide Norm, Resolve, Valid;
      var parent := ResolvePath("..");
      var valid := ValidatePath(parent);
      if !valid {
        return Code(550);
      }
      if Norm(parent) in ans.unseen || !IsDirectory(disk, Norm(parent)) {
        return Code(550);
      }
      currentDirectory := parent;
      return Code(250);
    }

    method HandleLIST(path: string, ans: Answers) returns (r: Reply)
      modifies this`activeModeEnabled, this`activeModeIp, this`activeModePort, this`active
      ensures Outcome(Abs(), disk, r, None) == DoList(old(Abs()), old(disk), path, ans)
    {
      hide Norm, Resolve, Valid, May, AfterAccept, Accepts;
      var allowed := MayAccess("list", "");
      if !allowed {
        return Code(550);
      }
      var target := ResolvePath(path);
      var valid := ValidatePath(target);
      if !valid {
        return Code(550);
      }
      if Norm(target) in ans.unseen {
        active := false;
        return Uncaught;
      }
      if !Exists(disk, Norm(target)) {
        return Code(550);
      }
      var ok := AcceptDataConnection(ans);
      if !ok {
        return Code(425);
      }
      if !ans.systemOk {
        if IsDirectory(disk, Norm(target)) {
          return Code(550);
        }
        active := false;
        return Uncaught;
      }
      return Code(226);
    }

    method HandleMLSD(path: string, ans: Answers) returns (r: Reply)
      modifies this`activeModeEnabled, this`activeModeIp, this`activeModePort
      ensures Outcome(Abs(), disk, r, None) == DoMlsd(old(Abs()), old(disk), path, ans)
    {
      hide Norm, Resolve, Valid, May, AfterAccept, Accepts;
      var allowed := MayAccess("list", path);
      if !allowed {
        return Code(550);
      }
      var target := ResolvePath(path);
      var valid := ValidatePath(target);
      if !valid || Norm(target) in ans.unseen || !IsDirectory(disk, Norm(target)) {
        return Code(550);
      }
      var ok := AcceptDataConnection(ans);
      if !ok {
        return Code(425);
      }
      return Code(if ans.systemOk then 226 else 550);
    }

    method HandleSIZE(path: string, ans: Answers) returns (r: Reply)
      modifies this`active
      ensures Outcome(Abs(), disk, r, None) == DoSize(old(Abs()), old(disk), path, ans)
    {
      hide Norm, Resolve;
      var target := ResolvePath(path);
      if Norm(target) in ans.unseen {
        active := false;
        return Uncaught;
      }
      if IsFile(disk, Norm(target)) {
        if !ans.systemOk {
          active := false;
          return Uncaught;
        }
        return Code(213);
      }
      return Code(550);
    }

    // ----- Data channel commands -----

    method EnterPassive(code: int, ans: Answers) returns (r: Reply)
      modifies this`activeModeEnabled, this`passiveListening
      ensures Outcome(Abs(), disk, r, None) == OpenPassive(cfg, old(Abs()), old(disk), code, ans)
    {
      activeModeEnabled := false;
      CloseDataSocket();
      var port := CreatePassiveDataSocket(ans);
      if port.None? {
        return Code(425);
      }
      return Code(code);
    }

    method HandlePASV(ans: Answers) returns (r: Reply)
      modifies this`activeModeEnabled, this`passiveListening
      ensures Outcome(Abs(), disk, r, None) == DoPasv(cfg, old(Abs()), old(disk), ans)
    {
      hide OpenPassive;
      if epsvAll {
        return Code(501);
      }
      r := EnterPassive(227, ans);
    }

    method HandleEPSV(argument: string, ans: Answers) returns (r: Reply)
      modifies this`activeModeEnabled, this`passiveListening, this`epsvAll
      ensures Outcome(Abs(), disk, r, None) == DoEpsv(cfg, old(Abs()), old(disk), argument, ans)
    {
      hide OpenPassive, Upper;
      var arg := Upper(argument);
      if arg == "ALL" {
        epsvAll := true;
        return Code(200);
      }
      if argument != "" && argument != "1" && argument != "2" {
        return Code(522);
      }
      r := EnterPassive(229, ans);
    }

    // Collects the comma-separated numbers; None when one does not parse.
    method ParseNumbers(text: string) returns (numbers: Option<seq<int>>)
      ensures numbers == ParseAll(Lines(text, ','))
    {
      hide Stoi;
      var tokens := Lines(text, ',');
      var parts: seq<int> := [];
      for i := 0 to |tokens|
        invariant ParseAll(tokens[..i]) == Some(parts)
      {
        assert Front(tokens[..i + 1]) == tokens[..i];
        var value := Stoi(tokens[i]);
        if value.None? {
          ParseAllStuck(tokens, i + 1);
          return None;
        }
        parts := parts + [value.value];
      }
      assert tokens[..|tokens|] == tokens;
      return Some(parts);
    }

    static lemma {:induction false} ParseAllStuck(tokens: seq<string>, i: nat)
      requires i <= |tokens| && ParseAll(tokens[..i]) == None
      ensures ParseAll(tokens) == None
      decreases |tokens| - i
    {
      hide Stoi;
      if i < |tokens| {
        assert Front(tokens[..i + 1]) == tokens[..i];
        ParseAllStuck(tokens, i + 1);
      } else {
        assert tokens[..i] == tokens;
      }
    }

    method HandlePORT(addressPort: string) returns (r: Reply)
      modifies this`activeModeEnabled, this`activeModeIp, this`activeModePort, this`passiveListening
      ensures Outcome(Abs(), disk, r, None) == DoPort(old(Abs()), old(disk), addressPort)
    {
      hide ParseAll, Lines, Dotted;
      if epsvAll {
        return Code(501);
      }
      var parts := ParseNumbers(addressPort);
      if parts.None? || |parts.value| != 6 {
        return Code(501);
      }
      activeModeIp := Dotted(parts.value);
      activeModePort := parts.value[4] * 256 + parts.value[5];
      if activeModePort < 1024 || activeModePort > 65535 {
        return Code(501);
      }
      CloseDataSocket();
      activeModeEnabled := true;
      return Code(200);
    }

    // One more character either ends the field or extends it.
    static lemma SplitStep(token: string, c: char, rest: string, d: char)
      requires d !in token
      ensures c == d ==> Split(token + ([c] + rest), d) == [token] + Split(rest, d)
      ensures token + ([c] + rest) == (token + [c]) + rest
    {
      if c == d {
        SplitConcat(token, d, rest);
        SplitNoDelimiter(token, d);
        assert token + ([c] + rest) == token + [d] + rest;
      }
    }

    // The character loop of EPRT: every delimiter ends a field.
    method SplitFields(text: string, delimiter: char) returns (fields: seq<string>)
      requires text != "" && text[|text| - 1] == delimiter
      ensures fields == Front(Split(text, delimiter))
    {
      hide Split;
      fields := [];
      var token := "";
      assert text == "" + text[0..];
      for i := 0 to |text|
        invariant delimiter !in token
        invariant i == |text| ==> token == ""
        invariant Split(text, delimiter) == fields + Split(token + text[i..], delimiter)
      {
        assert text[i..] == [text[i]] + text[i + 1..];
        SplitStep(token, text[i], text[i + 1..], delimiter);
        if text[i] == delimiter {
          assert fields + ([token] + Split(text[i + 1..], delimiter))
              == (fields + [token]) + Split(text[i + 1..], delimiter);
          fields := fields + [token];
          token := "";
          assert token + text[i + 1..] == text[i + 1..];
        } else {
          token := token + [text[i]];
        }
      }
      assert token + text[|text|..] == "";
      SplitNoDelimiter("", delimiter);
    }

    method HandleEPRT(endpoint: string) returns (r: Reply)
      modifies this`activeModeEnabled, this`activeModeIp, this`activeModePort, this`passiveListening
      ensures Outcome(Abs(), disk, r, None) == DoEprt(old(Abs()), old(disk), endpoint)
    {
      hide Stoi, Split;
      if epsvAll {
        return Code(501);
      }
      if |endpoint| < 7 {
        return Code(501);
      }
      var delimiter := endpoint[0];
      if endpoint[|endpoint| - 1] != delimiter {
        return Code(501);
      }
      var fields := SplitFields(endpoint[1..], delimiter);
      if |fields| != 3 {
        return Code(501);
      }
      if fields[0] != "1" {
        return Code(522);
      }
      var port := Stoi(fields[2]);
      if port.None? {
        return Code(501);
      }
      if port.value < 1024 || port.value > 65535 {
        return Code(501);
      }
      CloseDataSocket();
      activeModeIp := fields[1];
      activeModePort := port.value;
      activeModeEnabled := true;
      return Code(200);
    }

    method HandleABOR() returns (r: Reply)
      modifies this`passiveListening
      ensures Abs() == old(Abs()).(data := ClosePassive(old(Channel()))) && disk == old(disk) && r == Code(226)
    {
      CloseDataSocket();
      r := Code(226);
    }

    // ----- Transfer parameters -----

    method HandleMODE(mode: string) returns (r: Reply)
      modifies this`transferMode
      ensures Outcome(Abs(), disk, r, None) == DoMode(cfg, old(Abs()), old(disk), mode)
    {
      hide Upper;
      var m := Upper(mode);
      if m == "S" || m == "STREAM" {
        transferMode := Stream;
        return Code(200);
      }
      if m == "Z" {
        if !cfg.compression {
          return Code(504);
        }
        transferMode := Compressed;
        return Code(200);
      }
      return Code(504);
    }

    method HandleREST(position: string) returns (r: Reply)
      modifies this`resumePosition
      ensures Outcome(Abs(), disk, r, None) == DoRest(old(Abs()), old(disk), position)
    {
      hide Stoull;
      if transferMode.Compressed? {
        return Code(550);
      }
      var value := Stoull(position, 10);
      if value.None? {
        return Code(501);
      }
      resumePosition := Position(value.value);
      return Code(350);
    }

    // ----- Transfers -----

    // Downloads an existing file once the data connection has been asked for:
    // `wire` is what goes out, `complete` whether the transfer counts as complete.
    method SendFile(k: Path, ans: Answers) returns (code: int, wire: seq<Byte>, complete: bool)
      requires IsFile(disk, k)
      modifies this`resumePosition
      ensures code == FileReply(old(Abs()), |disk[k].content|, ans)
      ensures resumePosition == if code == 226 then 0 else old(resumePosition)
      ensures Fetched(cfg, old(Abs()), disk[k].content, ans, wire, complete)
    {
      hide Delivers, Possible, Completed, Wire, Willing;
      wire, complete := [], false;
      if !ans.systemOk {
        return 550, wire, complete;
      }
      var content := disk[k].content;
      if resumePosition > 0 && resumePosition >= |content| {
        resumePosition := 0;
        return 226, wire, complete;
      }
      if resumePosition < 0 {
        return 550, wire, complete;
      }
      if transferMode.Compressed? {
        if !ans.zlibOk {
          return 426, wire, complete;
        }
      } else {
        wire, complete := SendPlain(content, ans.clock, ans.kernel);
      }
      resumePosition := 0;
      return 226, wire, complete;
    }

    method SendPlain(content: seq<Byte>, clock: Clock, kernel: Kernel) returns (wire: seq<Byte>, complete: bool)
      requires Restarts(content, resumePosition)
      ensures Delivers(content, resumePosition, cfg.useSendfile, cfg.useMmap, wire, complete)
      ensures !cfg.useMmap ==>
                wire <= content[resumePosition..] && (complete <==> wire == content[resumePosition..])
      ensures Willing(kernel, BufferSize(cfg.bufferSize)) ==> complete && wire == content[resumePosition..]
    {
      hide Possible, Completed, Wire, Logged, Willing, LastFallsShort;
      var delivery :=
        Retrieve(content, resumePosition, cfg.bufferSize, cfg.maxRate, clock, kernel, cfg.useSendfile, cfg.useMmap);
      wire, complete := delivery.wire, delivery.ok;
      if !cfg.useMmap {
        DeliversPlainly(content, resumePosition, cfg.useSendfile, wire, complete);
      }
    }

    method HandleRETR(filename: string, ans: Answers)
      returns (r: Reply, opening: Option<Opening>, wire: seq<Byte>, complete: bool)
      modifies this`activeModeEnabled, this`activeModeIp, this`activeModePort, this`resumePosition, this`active
      ensures Outcome(Abs(), disk, r, opening) == DoRetr(cfg, old(Abs()), old(disk), filename, ans)
      ensures var k := Norm(Resolve(old(Abs()), filename));
        if opening.Some? && Accepts(old(Channel()), ans)
        then IsFile(disk, k) && Fetched(cfg, old(Abs()), disk[k].content, ans, wire, complete)
        else wire == [] && !complete
    {
      hide Norm, Resolve, Valid, May, AfterAccept, Accepts, Fetched, FetchAt;
      opening, wire, complete := None, [], false;
      var allowed := MayAccess("read", filename);
      if !allowed {
        return Code(550), opening, wire, complete;
      }
      var path := ResolvePath(filename);
      var valid := ValidatePath(path);
      if !valid {
        return Code(550), opening, wire, complete;
      }
      if Norm(path) in ans.unseen {
        active := false;
        return Uncaught, opening, wire, complete;
      }
      if !IsFile(disk, Norm(path)) {
        return Code(550), opening, wire, complete;
      }
      if transferMode.Compressed? {
        if resumePosition > 0 {
          resumePosition := 0;
          return Code(550), opening, wire, complete;
        }
        if !cfg.compression {
          return Code(504), opening, wire, complete;
        }
      }
      r, opening, wire, complete := FetchFile(path, ans);
    }

    // The second half of RETR: data connection and transfer.
    method FetchFile(path: string, ans: Answers)
      returns (r: Reply, opening: Option<Opening>, wire: seq<Byte>, complete: bool)
      requires IsFile(disk, Norm(path))
      modifies this`activeModeEnabled, this`activeModeIp, this`activeModePort, this`resumePosition
      ensures Outcome(Abs(), disk, r, opening) == FetchAt(old(Abs()), old(disk), path, ans) && opening.Some?
      ensures if Accepts(old(Channel()), ans)
              then Fetched(cfg, old(Abs()), disk[Norm(path)].content, ans, wire, complete)
              else wire == [] && !complete
    {
      hide Norm, AfterAccept, Accepts, Fetched;
      opening, wire, complete := Some(Opening(false, path, transferMode, resumePosition)), [], false;
      var ok := AcceptDataConnection(ans);
      if !ok {
        return Code(425), opening, wire, complete;
      }
      SameFetch(cfg, old(Abs()), Abs(), disk[Norm(path)].content, ans);
      var code;
      code, wire, complete := SendFile(Norm(path), ans);
      return Code(code), opening, wire, complete;
    }

    // Asking for the data connection has no bearing on what is then fetched.
    static lemma SameFetch(cfg: Config, s: State, s': State, content: seq<Byte>, ans: Answers)
      requires s' == Attempted(s, ans)
      ensures forall wire, complete ::
                Fetched(cfg, s', content, ans, wire, complete) ==> Fetched(cfg, s, content, ans, wire, complete)
    {
    }

    method HandleSTOR(filename: string, ans: Answers) returns (r: Reply, opening: Option<Opening>)
      modifies this`activeModeEnabled, this`activeModeIp, this`activeModePort, this`resumePosition
      modifies this`disk, this`active
      ensures Outcome(Abs(), disk, r, opening) == DoStor(cfg, old(Abs()), old(disk), filename, ans)
    {
      hide Norm, Resolve, Valid, May, AfterAccept, Accepts, StoreAt, EffectiveQuota;
      opening := None;
      var allowed := MayAccess("write", filename);
      if !allowed {
        return Code(550), opening;
      }
      var path := ResolvePath(filename);
      var valid := ValidatePath(path);
      if !valid {
        return Code(550), opening;
      }
      var quota := StorageQuota();
      if quota > 0 && currentUser.Some? {
        if ans.homeBytes >= quota {
          return Code(552), opening;
        }
      }
      if transferMode.Compressed? {
        if resumePosition > 0 {
          resumePosition := 0;
          return Code(550), opening;
        }
        if !cfg.compression {
          return Code(504), opening;
        }
      }
      r, opening := StoreFile(path, ans);
    }

    method StorageQuota() returns (quota: nat)
      ensures quota == EffectiveQuota(Abs())
    {
      quota := 0;
      if currentUser.Some? && currentUser.value.quota > 0 {
        quota := currentUser.value.quota;
      }
      if currentVirtualHost.Some? && currentVirtualHost.value.quota > 0 {
        var shared := currentVirtualHost.value.quota;
        quota := if quota == 0 then shared else if quota < shared then quota else shared;
      }
    }

    // The second half of STOR: data connection, parent directories, upload.
    method StoreFile(path: string, ans: Answers) returns (r: Reply, opening: Option<Opening>)
      modifies this`activeModeEnabled, this`activeModeIp, this`activeModePort, this`resumePosition
      modifies this`disk, this`active
      ensures Outcome(Abs(), disk, r, opening) == StoreAt(old(Abs()), old(disk), path, ans)
    {
      hide Norm, AfterAccept, Accepts, StoreInto, AncestorIsFile, MakeAncestors, MakeAncestorsUpTo;
      opening := Some(Opening(true, path, transferMode, resumePosition));
      var ok := AcceptDataConnection(ans);
      if !ok {
        return Code(425), opening;
      }
      var k := Norm(path);
      if AncestorIsFile(disk, k) {
        active := false;
        return Uncaught, opening;
      }
      if MissingAncestors(disk, k) != {} && !ans.systemOk {
        disk := MakeAncestorsUpTo(disk, k, ans.madeUpTo);
        active := false;
        return Uncaught, opening;
      }
      disk := MakeAncestors(disk, k);
      if resumePosition > 0 && k in ans.unseen {
        active := false;
        return Uncaught, opening;
      }
      r := WriteFile(k, ans, old(Abs()), opening);
    }

    // Opens the target: what the file holds at first and where writing starts.
    method OpenTarget(k: Path, ans: Answers) returns (isOpen: bool, base: seq<Byte>, position: nat)
      ensures isOpen == (OpensForUpdate(Abs(), disk, k, ans) || OpensTruncated(disk, k, ans))
      ensures OpensForUpdate(Abs(), disk, k, ans) ==> base == disk[k].content && position == resumePosition
      ensures !OpensForUpdate(Abs(), disk, k, ans) ==> base == [] && position == 0
    {
      isOpen, base, position := false, [], 0;
      if resumePosition > 0 && k in disk {
        if disk[k].File? && ans.openForUpdate {
          isOpen, base, position := true, disk[k].content, resumePosition;
        }
      }
      if !isOpen {
        isOpen := !IsDirectory(disk, k) && ans.openForWrite;
      }
    }

    // Receives the upload: the resulting content, whether the transfer got going
    // at all, and whether it counts as complete.
    method Receive(base: seq<Byte>, position: nat, ans: Answers) returns (content: seq<Byte>, ran: bool, ok: bool)
      ensures content == WriteAt(base, position, Written(Abs(), ans))
      ensures ran == !(transferMode.Compressed? && !ans.zlibOk)
      ensures ok == UploadOk(Abs(), ans)
    {
      hide WriteAt, Flatten, Kept, Scheduled;
      if transferMode.Compressed? {
        if !ans.zlibOk {
          return WriteAt(base, position, Kept([], ans.written)), false, false;
        }
        return WriteAt(base, position, Kept(ans.inflated, ans.written)), true, ans.inflateOk;
      }
      var total, marks;
      content, total, marks := ReceiveUpload(base, position, ans.chunks, cfg.maxRate, ans.clock, ans.written);
      return content, true, true;
    }

    // `before` is the state in which the data connection was asked for.
    method WriteFile(k: Path, ans: Answers, ghost before: State, ghost opening: Option<Opening>) returns (r: Reply)
      requires Abs() == Attempted(before, ans)
      modifies this`disk, this`resumePosition
      ensures Outcome(Abs(), disk, r, opening) == StoreInto(before, old(disk), k, ans, opening)
    {
      hide AfterAccept, WriteAt, OpensTruncated, ModeAt, Written, UploadOk, OpensForUpdate;
      SameReception(before, Abs(), disk, k, ans);
      var isOpen, base, position := OpenTarget(k, ans);
      if !isOpen {
        return Code(550);
      }
      var content, ran, ok := Receive(base, position, ans);
      disk := disk[k := File(content, ModeAt(disk, k))];
      if ran {
        resumePosition := 0;
      }
      return Code(if ok then 226 else 426);
    }

    // Asking for the data connection has no bearing on how the target is opened.
    static lemma SameReception(s: State, s': State, d: Tree, k: Path, ans: Answers)
      requires s' == Attempted(s, ans)
      ensures OpensForUpdate(s', d, k, ans) == OpensForUpdate(s, d, k, ans)
      ensures Written(s', ans) == Written(s, ans) && UploadOk(s', ans) == UploadOk(s, ans)
    {
    }

    // Whether a numbered name is in use, as far as the system can tell.
    predicate Probe(base: string, attempt: nat, ans: Answers)
      reads this
      ensures Probe(base, attempt, ans) == Taken(Abs(), disk, base, attempt, ans)
    {
      var k := Norm(currentDirectory + "/" + UniqueName(base, attempt));
      Exists(disk, k) && k !in ans.unseen
    }

    method HandleSTOU(filename: string, ans: Answers) returns (r: Reply, opening: Option<Opening>)
      modifies this`activeModeEnabled, this`activeModeIp, this`activeModePort, this`resumePosition
      modifies this`disk, this`active
      ensures Outcome(Abs(), disk, r, opening) == DoStou(cfg, old(Abs()), old(disk), filename, ans)
    {
      hide Norm, DoStor, UniqueName, UniqueBase;
      var base := UniqueBase(filename);
      var attempt := 0;
      while attempt < MAX_ATTEMPTS && Probe(base, attempt, ans)
        invariant attempt <= MAX_ATTEMPTS
        invariant FirstUnused(Abs(), disk, base, 0, ans) == FirstUnused(Abs(), disk, base, attempt, ans)
      {
        attempt := attempt + 1;
      }
      if attempt == MAX_ATTEMPTS {
        return Code(452), None;
      }
      resumePosition := 0;
      r, opening := HandleSTOR(UniqueName(base, attempt), ans);
    }

    method HandleAPPE(filename: string, ans: Answers) returns (r: Reply, opening: Option<Opening>)
      modifies this`activeModeEnabled, this`activeModeIp, this`activeModePort, this`resumePosition
      modifies this`disk, this`active
      ensures Outcome(Abs(), disk, r, opening) == DoAppe(old(Abs()), old(disk), filename, ans)
    {
      hide Norm, Resolve, Valid, May, AppendAt;
      opening := None;
      var allowed := MayAccess("write", filename);
      if !allowed {
        return Code(550), opening;
      }
      var path := ResolvePath(filename);
      var valid := ValidatePath(path);
      if !valid {
        return Code(550), opening;
      }
      if transferMode.Compressed? {
        return Code(550), opening;
      }
      r, opening := AppendFile(path, ans);
    }

    // The second half of APPE: data connection and upload.
    method AppendFile(path: string, ans: Answers) returns (r: Reply, opening: Option<Opening>)
      modifies this`activeModeEnabled, this`activeModeIp, this`activeModePort, this`resumePosition
      modifies this`disk, this`active
      ensures Outcome(Abs(), disk, r, opening) == AppendAt(old(Abs()), old(disk), path, ans)
    {
      hide Norm, AfterAccept, Accepts, Flatten, Kept;
      opening := Some(Opening(true, path, transferMode, resumePosition));
      var ok := AcceptDataConnection(ans);
      if !ok {
        return Code(425), opening;
      }
      var k := Norm(path);
      if k in ans.unseen {
        active := false;
        return Uncaught, opening;
      }
      if !OpensForAppend(disk, k, ans) {
        return Code(550), opening;
      }
      var content := AppendUpload(ContentAt(disk, k), ans.chunks, ans.written);
      disk := disk[k := File(content, ModeAt(disk, k))];
      resumePosition := 0;
      return Code(226), opening;
    }

    // ----- Changing files and directories -----

    method HandleDELE(filename: string, ans: Answers) returns (r: Reply)
      modifies this`disk, this`active
      ensures Outcome(Abs(), disk, r, None) == DoDele(old(Abs()), old(disk), filename, ans)
    {
      hide Norm, Resolve, Valid, May;
      var allowed := MayAccess("write", filename);
      if !allowed {
        return Code(550);
      }
      var path := ResolvePath(filename);
      var valid := ValidatePath(path);
      if !valid {
        return Code(550);
      }
      if Norm(path) in ans.unseen {
        active := false;
        return Uncaught;
      }
      if IsFile(disk, Norm(path)) {
        if !ans.systemOk {
          active := false;
          return Uncaught;
        }
        disk := disk - {Norm(path)};
        return Code(250);
      }
      return Code(550);
    }

    method HandleMKD(dirname: string, ans: Answers) returns (r: Reply)
      modifies this`disk, this`active
      ensures Outcome(Abs(), disk, r, None) == DoMkd(old(Abs()), old(disk), dirname, ans)
    {
      hide Norm, Resolve, Valid, May;
      var allowed := MayAccess("write", dirname);
      if !allowed {
        return Code(550);
      }
      var path := ResolvePath(dirname);
      var valid := ValidatePath(path);
      if !valid {
        return Code(550);
      }
      var k := Norm(path);
      if IsDirectory(disk, k) {
        return Code(550);
      }
      if Exists(disk, k) || !ParentIsDirectory(disk, k) || !ans.systemOk {
        active := false;
        return Uncaught;
      }
      disk := disk[k := Directory(DIRECTORY_MODE)];
      return Code(257);
    }

    method HandleRMD(dirname: string, ans: Answers) returns (r: Reply)
      modifies this`disk, this`active
      ensures Outcome(Abs(), disk, r, None) == DoRmd(old(Abs()), old(disk), dirname, ans)
    {
      hide Norm, Resolve, Valid, May;
      var allowed := MayAccess("write", dirname);
      if !allowed {
        return Code(550);
      }
      var path := ResolvePath(dirname);
      var valid := ValidatePath(path);
      if !valid {
        return Code(550);
      }
      var k := Norm(path);
      if k in ans.unseen {
        active := false;
        return Uncaught;
      }
      if IsDirectory(disk, k) {
        if !IsEmptyDirectory(disk, k) || !ans.systemOk {
          active := false;
          return Uncaught;
        }
        disk := disk - {k};
        return Code(250);
      }
      return Code(550);
    }

    method HandleRNFR(filename: string, ans: Answers) returns (r: Reply)
      modifies this`renameFromPath, this`active
      ensures Outcome(Abs(), disk, r, None) == DoRnfr(old(Abs()), old(disk), filename, ans)
    {
      hide Norm, Resolve, Valid, May;
      var allowed := MayAccess("write", filename);
      if !allowed {
        return Code(550);
      }
      var path := ResolvePath(filename);
      var valid := ValidatePath(path);
      if !valid {
        return Code(550);
      }
      if Norm(path) in ans.unseen {
        active := false;
        return Uncaught;
      }
      if !Exists(disk, Norm(path)) {
        return Code(550);
      }
      renameFromPath := path;
      return Code(350);
    }

    method HandleRNTO(filename: string, ans: Answers) returns (r: Reply)
      modifies this`renameFromPath, this`disk, this`active
      ensures Outcome(Abs(), disk, r, None) == DoRnto(old(Abs()), old(disk), filename, ans)
    {
      hide Norm, Resolve, Valid, May, Move, CanRename;
      if renameFromPath == "" {
        return Code(503);
      }
      var allowed := MayAccess("write", filename);
      if !allowed {
        renameFromPath := "";
        return Code(550);
      }
      var path := ResolvePath(filename);
      var valid := ValidatePath(path);
      if !valid {
        renameFromPath := "";
        return Code(550);
      }
      if Norm(path) in ans.unseen {
        active := false;
        return Uncaught;
      }
      if Exists(disk, Norm(path)) {
        renameFromPath := "";
        return Code(553);
      }
      var from, to := Norm(renameFromPath), Norm(path);
      renameFromPath := "";
      if CanRename(disk, from, to) && ans.systemOk {
        disk := Move(disk, from, to);
        return Code(250);
      }
      return Code(550);
    }

    method HandleCHMOD(bits: string, target: string, ans: Answers) returns (r: Reply)
      modifies this`disk
      ensures Outcome(Abs(), disk, r, None) == DoChmod(old(Abs()), old(disk), bits, target, ans)
    {
      hide Norm, Resolve, Valid, May, Stoull;
      if bits == "" || target == "" {
        return Code(501);
      }
      var allowed := MayAccess("write", target);
      if !allowed {
        return Code(550);
      }
      var path := ResolvePath(target);
      var valid := ValidatePath(path);
      if !valid {
        return Code(550);
      }
      var mode := Stoull(bits, 8);
      if mode.None? {
        return Code(501);
      }
      var k := Norm(path);
      if !Exists(disk, k) || !ans.systemOk {
        return Code(550);
      }
      disk := disk[k := disk[k].(mode := mode.value % 4096)];
      return Code(200);
    }

    // ----- The command loop -----

    method Serve(cmd: Command, ans: Answers) returns (r: Reply, opening: Option<Opening>)
      modifies this
      ensures Outcome(Abs(), disk, r, opening) == Step(cfg, old(Abs()), old(disk), cmd, ans)
    {
      if !Public(cmd) && !authenticated {
        return Code(530), None;
      }
      if Writes(cmd) {
        r, opening := ServeWrite(cmd, ans);
      } else {
        r, opening := ServeOther(cmd, ans);
      }
    }

    method ServeWrite(cmd: Command, ans: Answers) returns (r: Reply, opening: Option<Opening>)
      requires Writes(cmd)
      modifies this
      ensures Outcome(Abs(), disk, r, opening) == DoWrite(cfg, old(Abs()), old(disk), cmd, ans)
    {
      hide DoStor, DoStou, DoAppe, DoDele, DoMkd, DoRmd, DoRnto, DoChmod;
      opening := None;
      match cmd
      case STOR(arg) => r, opening := HandleSTOR(arg, ans);
      case STOU(arg) => r, opening := HandleSTOU(arg, ans);
      case APPE(arg) => r, opening := HandleAPPE(arg, ans);
      case DELE(arg) => r := HandleDELE(arg, ans);
      case MKD(arg) => r := HandleMKD(arg, ans);
      case RMD(arg) => r := HandleRMD(arg, ans);
      case RNTO(arg) => r := HandleRNTO(arg, ans);
      case CHMOD(bits, arg) => r := HandleCHMOD(bits, arg, ans);
    }

    method ServeOther(cmd: Command, ans: Answers) returns (r: Reply, opening: Option<Opening>)
      requires !Writes(cmd)
      modifies this
      ensures Outcome(Abs(), disk, r, opening) == DoOther(cfg, old(Abs()), old(disk), cmd, ans)
    {
      hide DoSession, DoSetup;
      if OfSession(cmd) {
        opening := None;
        r := ServeSession(cmd, ans);
      } else {
        r, opening := ServeSetup(cmd, ans);
      }
    }

    method ServeSession(cmd: Command, ans: Answers) returns (r: Reply)
      requires OfSession(cmd)
      modifies this
      ensures Outcome(Abs(), disk, r, None) == DoSession(cfg, old(Abs()), old(disk), cmd, ans)
    {
      hide DoUser, DoPass, DoHost, DoCwd, DoCdup, DoList, DoMlsd, DoSize;
      match cmd
      case USER(name) => r := HandleUSER(name);
      case PASS(password) => r := HandlePASS(password, ans);
      case QUIT => r := HandleQUIT();
      case HOST(name) => r := HandleHOST(name);
      case ABOR => r := HandleABOR();
      case CWD(arg) => r := HandleCWD(arg, ans);
      case CDUP => r := HandleCDUP(ans);
      case LIST(arg) => r := HandleLIST(arg, ans);
      case MLSD(arg) => r := HandleMLSD(arg, ans);
      case SIZE(arg) => r := HandleSIZE(arg, ans);
    }

    method ServeSetup(cmd: Command, ans: Answers) returns (r: Reply, opening: Option<Opening>)
      requires !Writes(cmd) && !OfSession(cmd)
      modifies this
      ensures Outcome(Abs(), disk, r, opening) == DoSetup(cfg, old(Abs()), old(disk), cmd, ans)
    {
      hide DoPasv, DoEpsv, DoPort, DoEprt, DoMode, DoRest, DoRetr, DoRnfr;
      opening := None;
      match cmd
      case PASV => r := HandlePASV(ans);
      case EPSV(arg) => r := HandleEPSV(arg, ans);
      case PORT(arg) => r := HandlePORT(arg);
      case EPRT(arg) => r := HandleEPRT(arg);
      case MODE(arg) => r := HandleMODE(arg);
      case REST(arg) => r := HandleREST(arg);
      case RETR(arg) =>
        var wire, complete;
        r, opening, wire, complete := HandleRETR(arg, ans);
      case RNFR(arg) => r := HandleRNFR(arg, ans);
      case Other(needsLogin, code) => r := Code(code);
    }

    // Serves the commands of a client until there are none or the session ends.
    method HandleClient(events: seq<Event>)
      modifies this
      ensures World(Abs(), disk) == Run(cfg, World(old(Abs()), old(disk)), events)
    {
      hide Step;
      var i := 0;
      while i < |events| && active
        invariant i <= |events|
        invariant Run(cfg, World(old(Abs()), old(disk)), events)
               == Run(cfg, World(Abs(), disk), events[i..])
      {
        var rest := events[i..];
        assert rest[0] == events[i] && rest[1..] == events[i + 1..];
        var r, opening := Serve(events[i].cmd, events[i].ans);
        i := i + 1;
      }
    }
  }
}
