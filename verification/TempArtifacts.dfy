/**
 The rate limiter's own temporary files: how their names print and parse, which state file
 a name belongs to, and the scan, refusal and cleanup of a namespace
 (brokers/kis_rate_limiter.py).
 */
module TempArtifacts {
  import opened Wrappers

  // ------------------------------------------------------------------ Names

  predicate IsDigit(c: char) {
    '0' <= c <= '9'
  }

  predicate IsHexDigit(c: char) {
    IsDigit(c) || 'a' <= c <= 'f'
  }

  /** The digits of the pattern's character classes, one by one. */
  lemma DigitsAre(c: char)
    ensures IsDigit(c) <==> c in "0123456789"
    ensures IsHexDigit(c) <==> c in "0123456789abcdef"
  {
    assert c in "0123456789" ==> '0' <= c <= '9';
    assert c in "0123456789abcdef" ==> ('0' <= c <= '9' || 'a' <= c <= 'f');
    if '0' <= c <= '9' {
      assert "0123456789"[c as int - '0' as int] == c && "0123456789abcdef"[c as int - '0' as int] == c;
    } else if 'a' <= c <= 'f' {
      assert "0123456789abcdef"[10 + c as int - 'a' as int] == c;
    }
  }

  /** What the temporary-name pattern captures. */
  datatype TempParts = TempParts(state: string, pid: string, uuid: string)

  function Decimal(n: nat): (s: string)
    ensures |s| >= 1 && forall k :: 0 <= k < |s| ==> IsDigit(s[k])
  {
    var digit := [('0' as int + n % 10) as char];
    if n < 10 then digit else Decimal(n / 10) + digit
  }

  function Number(s: string): nat
    requires forall k :: 0 <= k < |s| ==> IsDigit(s[k])
  {
    if s == [] then 0 else
      assert IsDigit(s[|s| - 1]);
      10 * Number(s[..|s| - 1]) + (s[|s| - 1] as int - '0' as int)
  }

  /** int() undoes the decimal printing of a pid. */
  lemma {:induction false} NumberOfDecimal(n: nat)
    ensures Number(Decimal(n)) == n
  {
    if n >= 10 {
      NumberOfDecimal(n / 10);
      var s := Decimal(n);
      assert s[..|s| - 1] == Decimal(n / 10);
    }
  }

  /** _temp_name */
  function TempName(parts: TempParts): string {
    "." + parts.state + "." + parts.pid + "." + parts.uuid + ".tmp"
  }

  /** The pieces satisfy the pattern's character classes; its `.+` does not match a newline. */
  predicate WellFormed(parts: TempParts) {
    && |parts.state| >= 1 && '\n' !in parts.state
    && |parts.pid| >= 1 && (forall k :: 0 <= k < |parts.pid| ==> IsDigit(parts.pid[k]))
    && |parts.uuid| == 32 && (forall k :: 0 <= k < 32 ==> IsHexDigit(parts.uuid[k]))
  }

  /** The pattern matches the whole name with these captures. */
  predicate Matches(name: string, parts: TempParts) {
    WellFormed(parts) && name == TempName(parts)
  }

  /** How many digits a string ends in. */
  function TrailingDigits(s: string): (n: nat)
    ensures n <= |s| && forall k :: |s| - n <= k < |s| ==> IsDigit(s[k])
    ensures n < |s| ==> !IsDigit(s[|s| - n - 1])
  {
    if s == [] || !IsDigit(s[|s| - 1]) then 0 else 1 + TrailingDigits(s[..|s| - 1])
  }

  /** Everything up to the pid, the pid, the uuid: cut from the right, where the shape is fixed. */
  function FullMatch(name: string): (m: Option<TempParts>)
    ensures m.Some? ==> Matches(name, m.value)
  {
    if |name| < 37 then None else
      var head, uuid, tail := name[..|name| - 37], name[|name| - 36..|name| - 4], name[|name| - 37..|name| - 36];
      var n := TrailingDigits(head);
      if |head| < n + 3 then None else
        var parts := TempParts(head[1..|head| - n - 1], head[|head| - n..], uuid);
        assert name == head + tail + uuid + name[|name| - 4..];
        assert head == head[..1] + parts.state + head[|head| - n - 1..|head| - n] + parts.pid;
        if Matches(name, parts) then Some(parts) else None
  }

  lemma TrailingDigitsAfterDot(s: string, digits: string)
    requires forall k :: 0 <= k < |digits| ==> IsDigit(digits[k])
    ensures TrailingDigits(s + "." + digits) == |digits|
  {
    var whole := s + "." + digits;
    assert whole[|s|] == '.';
  }

  lemma NamePieces(parts: TempParts)
    requires |parts.uuid| == 32
    ensures var name, head := TempName(parts), "." + parts.state + "." + parts.pid;
            && |name| == |head| + 37
            && name[..|name| - 37] == head
            && name[|name| - 36..|name| - 4] == parts.uuid
  {
    var head := "." + parts.state + "." + parts.pid;
    assert TempName(parts) == head + ("." + parts.uuid + ".tmp");
  }

  lemma HeadPieces(state: string, pid: string)
    ensures var head := "." + state + "." + pid;
            && |head| == |state| + |pid| + 2
            && head[1..|head| - |pid| - 1] == state
            && head[|head| - |pid|..] == pid
  {
  }

  /** Parsing finds the captures of every name the pattern matches. */
  lemma FullMatchComplete(name: string, parts: TempParts)
    requires Matches(name, parts)
    ensures FullMatch(name) == Some(parts)
  {
    hide TempName, TrailingDigits;
    NamePieces(parts);
    HeadPieces(parts.state, parts.pid);
    TrailingDigitsAfterDot("." + parts.state, parts.pid);
  }

  /** A name matches in at most one way, whatever dots and digits the state name contains. */
  lemma MatchIsUnique(name: string, x: TempParts, y: TempParts)
    requires Matches(name, x) && Matches(name, y)
    ensures x == y
  {
    FullMatchComplete(name, x);
    FullMatchComplete(name, y);
  }

  /** What this limiter writes: a pid in decimal and a 32-digit hexadecimal token. */
  predicate Written(parts: TempParts, pid: nat) {
    parts.pid == Decimal(pid) && |parts.uuid| == 32 && (forall k :: 0 <= k < 32 ==> IsHexDigit(parts.uuid[k]))
  }

  /**
   A temporary this limiter writes parses back to its own parts exactly when its state name is
   not empty and has no line break; a state name with a line break yields a name it rejects.
   */
  lemma WrittenNameParsesBackIff(parts: TempParts, pid: nat)
    requires Written(parts, pid)
    ensures FullMatch(TempName(parts)) == Some(parts) <==> parts.state != "" && '\n' !in parts.state
    ensures parts.state != "" && '\n' !in parts.state ==> Number(parts.pid) == pid
    ensures '\n' in parts.state ==> FullMatch(TempName(parts)) == None
  {
    NumberOfDecimal(pid);
    if parts.state != "" && '\n' !in parts.state {
      FullMatchComplete(TempName(parts), parts);
    } else if '\n' in parts.state {
      LineBreakNeverMatches(parts);
    }
  }

  lemma LineBreakNeverMatches(parts: TempParts)
    requires '\n' in parts.state
    ensures FullMatch(TempName(parts)) == None
  {
    var name := TempName(parts);
    var m := FullMatch(name);
    if m.Some? {
      var k :| 0 <= k < |parts.state| && parts.state[k] == '\n';
      assert name[k + 1] == '\n';
      NoLineBreak(name, m.value, k + 1);
    }
  }

  lemma NoLineBreak(name: string, parts: TempParts, k: nat)
    requires Matches(name, parts) && k < |name|
    ensures name[k] != '\n'
  {
    var a, b := |parts.state| + 1, |parts.state| + |parts.pid| + 2;
    if 1 <= k < a {
      assert name[k] == parts.state[k - 1];
    } else if a < k < b {
      assert name[k] == parts.pid[k - a - 1];
    } else if b < k < b + 33 {
      assert name[k] == parts.uuid[k - b - 1];
    } else if k >= b + 33 {
      assert name[k] == ".tmp"[k - b - 33];
    }
  }

  // -------------------------------------------------------------- Ownership

  /** _namespace_prefix */
  function NamespacePrefix(state: string): string {
    "." + state + "."
  }

  predicate StartsWith(name: string, prefix: string) {
    |prefix| <= |name| && name[..|prefix|] == prefix
  }

  /** The scan's membership rule: our prefix, unless the name is wholly another state file's temporary. */
  predicate Claims(state: string, name: string) {
    StartsWith(name, NamespacePrefix(state)) && (FullMatch(name).Some? ==> FullMatch(name).value.state == state)
  }

  /** A well-formed temporary is claimed by its own state file and by no other. */
  lemma ClaimedByExactlyOne(parts: TempParts, state: string)
    requires WellFormed(parts)
    ensures Claims(state, TempName(parts)) <==> state == parts.state
  {
    FullMatchComplete(TempName(parts), parts);
    assert TempName(parts)[..|parts.state| + 2] == NamespacePrefix(parts.state);
  }

  /** A state file claims a name under its prefix unless the name is wholly another state file's temporary. */
  lemma ClaimsIff(state: string, name: string)
    ensures Claims(state, name)
            <==> "." + state + "." <= name && forall parts :: Matches(name, parts) ==> parts.state == state
  {
    hide FullMatch, Matches;
    forall parts | Matches(name, parts) ensures FullMatch(name) == Some(parts) {
      FullMatchComplete(name, parts);
    }
    if FullMatch(name).Some? {
      assert Matches(name, FullMatch(name).value);
    }
  }

  // ------------------------------------------------- Scan, refusal and cleanup

  datatype Kind = RegularFile | Symlink | Directory | OtherKind

  /** An entry as lstat shows it. */
  datatype Info = Info(kind: Kind, inode: int, mtime: int)

  datatype Classification = ValidStale | ValidLive | Invalid

  datatype Artifact = Artifact(name: string, classification: Classification, info: Info)

  datatype Refusal = ArtifactInvalid | ArtifactLive | TypeChanged | CleanupFailed

  /** _pid_is_alive: an unusable pid counts as alive. */
  predicate PidIsAlive(pid: int, running: set<int>) {
    pid <= 0 || pid in running
  }

  /** How one claimed entry is classified. */
  function Classify(name: string, info: Info, running: set<int>): Classification {
    match FullMatch(name)
    case None => Invalid
    case Some(parts) =>
      if info.kind != RegularFile then Invalid
      else if PidIsAlive(Number(parts.pid), running) then ValidLive
      else ValidStale
  }

  /** A regular file with a temporary's name, whose writer is dead. */
  ghost predicate IsOrphan(name: string, info: Info, running: set<int>) {
    exists parts :: Matches(name, parts) && info.kind == RegularFile
                    && Number(parts.pid) > 0 && Number(parts.pid) !in running
  }

  /** A regular file with a temporary's name, whose writer may be alive. */
  ghost predicate MayBeInUse(name: string, info: Info, running: set<int>) {
    exists parts :: Matches(name, parts) && info.kind == RegularFile
                    && (Number(parts.pid) <= 0 || Number(parts.pid) in running)
  }

  /** Something no limiter writes: not a temporary's name, or not a regular file. */
  ghost predicate IsAlien(name: string, info: Info) {
    info.kind != RegularFile || forall parts :: !Matches(name, parts)
  }

  /** What each classification means. */
  lemma ClassifyIff(name: string, info: Info, running: set<int>)
    ensures Classify(name, info, running) == ValidStale <==> IsOrphan(name, info, running)
    ensures Classify(name, info, running) == ValidLive <==> MayBeInUse(name, info, running)
    ensures Classify(name, info, running) == Invalid <==> IsAlien(name, info)
  {
    hide FullMatch, Matches, Number;
    forall parts | Matches(name, parts) ensures FullMatch(name) == Some(parts) {
      FullMatchComplete(name, parts);
    }
    if FullMatch(name).Some? {
      assert Matches(name, FullMatch(name).value);
    }
  }

  /** The artifacts a scan of `names` (the sorted listing) must report. */
  function Scanned(state: string, names: seq<string>, entries: map<string, Info>, running: set<int>): seq<Artifact> {
    if names == [] then []
    else
      var init, name := names[..|names| - 1], names[|names| - 1];
      Scanned(state, init, entries, running)
      + (if Claims(state, name) && name in entries
         then [Artifact(name, Classify(name, entries[name], running), entries[name])] else [])
  }

  /** The first artifact of one classification. */
  predicate Has(artifacts: seq<Artifact>, c: Classification) {
    exists k :: 0 <= k < |artifacts| && artifacts[k].classification == c
  }

  /** An artifact is the classification of one claimed, still present entry. */
  predicate IsScanOf(a: Artifact, state: string, entries: map<string, Info>, running: set<int>) {
    && Claims(state, a.name) && a.name in entries && a.info == entries[a.name]
    && a.classification == Classify(a.name, a.info, running)
  }

  /** The scan reports every claimed entry of the listing, and nothing else. */
  lemma {:induction false} ScannedExactly(state: string, names: seq<string>, entries: map<string, Info>,
                                           running: set<int>, name: string)
    ensures var r := Scanned(state, names, entries, running);
            && (forall a :: a in r ==> a.name in names && IsScanOf(a, state, entries, running))
            && (name in names && Claims(state, name) && name in entries ==>
                  Artifact(name, Classify(name, entries[name], running), entries[name]) in r)
  {
    hide Claims, Classify;
    if names != [] {
      var init, last := names[..|names| - 1], names[|names| - 1];
      assert names == init + [last];
      ScannedExactly(state, init, entries, running, name);
    }
  }

  /** The directory the shared state lives in. */
  class StateDirectory {
    var entries: map<string, Info>

    constructor ()
      ensures entries == map[]
    {
      entries := map[];
    }

    /** _scan_namespace: pure classification; nothing is followed or deleted. */
    method ScanNamespace(state: string, names: seq<string>, running: set<int>) returns (artifacts: seq<Artifact>)
      ensures artifacts == Scanned(state, names, entries, running)
    {
      hide Claims, Classify;
      artifacts := [];
      for n := 0 to |names|
        invariant artifacts == Scanned(state, names[..n], entries, running)
      {
        assert names[..n + 1][..n] == names[..n];
        var name := names[n];
        if Claims(state, name) && name in entries {
          var info := entries[name];
          artifacts := artifacts + [Artifact(name, Classify(name, info, running), info)];
        }
      }
      assert names[..|names|] == names;
    }

    /** _recheck_before_unlink: the entry must still be the regular file that was classified. */
    predicate SameFile(a: Artifact)
      requires a.name in entries
      reads this
    {
      entries[a.name].kind == RegularFile && entries[a.name].inode == a.info.inode
    }

    /**
     _cleanup_stale_temps.  `unlinkable` says which removals the filesystem permits.  Nothing
     but a stale artifact that is old enough and still the same regular file is ever removed.
     */
    method CleanupStale(artifacts: seq<Artifact>, now: int, minAge: int, unlinkable: set<string>)
      returns (r: Result<nat, Refusal>)
      modifies this
      ensures entries.Keys <= old(entries.Keys) && forall n :: n in entries ==> entries[n] == old(entries)[n]
      ensures forall n :: n in old(entries) && n !in entries ==>
                exists k :: 0 <= k < |artifacts| && artifacts[k].name == n && Removable(artifacts[k], now, minAge)
                            && old(entries)[n].kind == RegularFile && old(entries)[n].inode == artifacts[k].info.inode
      ensures r.Ok? ==> (forall k :: 0 <= k < |artifacts| && Removable(artifacts[k], now, minAge)
                           ==> artifacts[k].name !in entries)
      ensures r.Ok? || r.error == TypeChanged || r.error == CleanupFailed
      ensures r == Err(TypeChanged) ==>
                exists k :: 0 <= k < |artifacts| && Removable(artifacts[k], now, minAge)
                            && artifacts[k].name in old(entries)
                            && (old(entries)[artifacts[k].name].kind != RegularFile
                                || old(entries)[artifacts[k].name].inode != artifacts[k].info.inode)
      ensures r == Err(CleanupFailed) ==>
                exists k :: 0 <= k < |artifacts| && Removable(artifacts[k], now, minAge)
                            && artifacts[k].name in old(entries)
                            && artifacts[k].name !in unlinkable
    {
      var removed := 0;
      for j := 0 to |artifacts|
        invariant entries.Keys <= old(entries.Keys) && forall n :: n in entries ==> entries[n] == old(entries)[n]
        invariant forall n :: n in old(entries) && n !in entries ==>
                    exists k :: 0 <= k < |artifacts| && artifacts[k].name == n && Removable(artifacts[k], now, minAge)
                                && old(entries)[n].kind == RegularFile
                                && old(entries)[n].inode == artifacts[k].info.inode
        invariant forall k :: 0 <= k < j && Removable(artifacts[k], now, minAge) ==> artifacts[k].name !in entries
      {
        var a := artifacts[j];
        if Removable(a, now, minAge) && a.name in entries {
          if !SameFile(a) {
            return Err(TypeChanged);
          }
          if a.name !in unlinkable {
            return Err(CleanupFailed);
          }
          entries := entries - {a.name};
          removed := removed + 1;
        }
      }
      return Ok(removed);
    }
  }

  predicate Removable(a: Artifact, now: int, minAge: int) {
    a.classification == ValidStale && now - a.info.mtime >= minAge
  }

  /** _enforce_artifacts: invalid entries outrank live ones; anything else passes. */
  function Enforce(artifacts: seq<Artifact>): Option<Refusal> {
    if Has(artifacts, Invalid) then Some(ArtifactInvalid)
    else if Has(artifacts, ValidLive) then Some(ArtifactLive)
    else None
  }

  lemma HasIff(state: string, names: seq<string>, entries: map<string, Info>, running: set<int>, c: Classification)
    ensures Has(Scanned(state, names, entries, running), c)
            <==> exists j :: 0 <= j < |names| && names[j] in entries && Claims(state, names[j])
                             && Classify(names[j], entries[names[j]], running) == c
  {
    hide Claims, Classify;
    var r := Scanned(state, names, entries, running);
    ScannedExactly(state, names, entries, running, "");
    if Has(r, c) {
      var k :| 0 <= k < |r| && r[k].classification == c;
      assert r[k] in r;
      var j :| 0 <= j < |names| && names[j] == r[k].name;
    }
    forall j | 0 <= j < |names| && names[j] in entries && Claims(state, names[j])
               && Classify(names[j], entries[names[j]], running) == c
      ensures Has(r, c)
    {
      ScannedExactly(state, names, entries, running, names[j]);
    }
  }

  /**
   A namespace is refused for good if and only if it holds an entry no limiter writes; otherwise
   for now if and only if a writer of one of its temporaries may be alive; otherwise it passes,
   and every claimed entry is the regular, well-named temporary of a dead writer.
   */
  lemma EnforcePassesIff(state: string, names: seq<string>, entries: map<string, Info>, running: set<int>)
    ensures var refusal := Enforce(Scanned(state, names, entries, running));
            var alien := exists j :: 0 <= j < |names| && names[j] in entries && Claims(state, names[j])
                                     && IsAlien(names[j], entries[names[j]]);
            var inUse := exists j :: 0 <= j < |names| && names[j] in entries && Claims(state, names[j])
                                     && MayBeInUse(names[j], entries[names[j]], running);
            && (refusal == Some(ArtifactInvalid) <==> alien)
            && (refusal == Some(ArtifactLive) <==> !alien && inUse)
            && (refusal == None <==>
                  forall j :: 0 <= j < |names| && names[j] in entries && Claims(state, names[j])
                              ==> IsOrphan(names[j], entries[names[j]], running))
  {
    hide Claims, Classify, IsAlien, MayBeInUse, IsOrphan, Scanned, Has;
    HasIff(state, names, entries, running, Invalid);
    HasIff(state, names, entries, running, ValidLive);
    forall j | 0 <= j < |names| && names[j] in entries
      ensures var c := Classify(names[j], entries[names[j]], running);
              && (c == ValidStale <==> IsOrphan(names[j], entries[names[j]], running))
              && (c == ValidLive <==> MayBeInUse(names[j], entries[names[j]], running))
              && (c == Invalid <==> IsAlien(names[j], entries[names[j]]))
    {
      ClassifyIff(names[j], entries[names[j]], running);
    }
  }

  /** A listed orphan that is old enough is in the scan, to be removed. */
  lemma OrphanIsRemovable(state: string, names: seq<string>, entries: map<string, Info>, running: set<int>,
                          now: int, minAge: int, n: string)
    requires n in names && n in entries && Claims(state, n) && IsOrphan(n, entries[n], running)
    requires now - entries[n].mtime >= minAge
    ensures exists k :: 0 <= k < |Scanned(state, names, entries, running)|
                        && Scanned(state, names, entries, running)[k].name == n
                        && Removable(Scanned(state, names, entries, running)[k], now, minAge)
  {
    hide Claims, Classify, IsOrphan;
    ScannedExactly(state, names, entries, running, n);
    ClassifyIff(n, entries[n], running);
    var a := Artifact(n, Classify(n, entries[n], running), entries[n]);
    var k :| 0 <= k < |Scanned(state, names, entries, running)| && Scanned(state, names, entries, running)[k] == a;
  }

  /** What a cleanup may remove from a scan is an orphan that is old enough. */
  lemma RemovableIsOrphan(state: string, names: seq<string>, entries: map<string, Info>, running: set<int>,
                          now: int, minAge: int, k: nat)
    requires k < |Scanned(state, names, entries, running)|
    requires Removable(Scanned(state, names, entries, running)[k], now, minAge)
    ensures var a := Scanned(state, names, entries, running)[k];
            && a.name in entries && a.info == entries[a.name] && Claims(state, a.name)
            && IsOrphan(a.name, entries[a.name], running) && now - entries[a.name].mtime >= minAge
  {
    hide Claims, Classify, IsOrphan;
    var a := Scanned(state, names, entries, running)[k];
    ScannedExactly(state, names, entries, running, a.name);
    assert a in Scanned(state, names, entries, running);
    ClassifyIff(a.name, a.info, running);
  }
}
