/**
 * The AlmaLinux 9 patch for the control panel's installer script:
 * the two MariaDB detectors (`find_mariadb_command`, `find_mariadb_service`)
 * and `patch_installCyberPanel`, which rewrites the installer's text.
 *
 * The `which` and `systemctl` probes are oracle parameters; the installer
 * file is its existence flag and its contents as a string.
 */
module InstallerPatch {
  import opened Options
  import opened PyText

  // ---------------------------------------------------------------------
  // Detectors: first candidate the probe accepts, else a fallback
  // ---------------------------------------------------------------------

  /** Client commands tried in order, and the fallback when none resolves. */
  const MariadbCommands: seq<string> := ["mariadb", "mysql", "/usr/bin/mariadb", "/usr/bin/mysql"]
  const FallbackCommand := "mysql"

  /** Service names tried in order, and the fallback when none is listed. */
  const MariadbServices: seq<string> := ["mariadb", "mysqld", "mysql"]
  const FallbackService := "mariadb"

  /** The index of the first candidate `hit` accepts, if any. */
  function FirstHit(candidates: seq<string>, hit: string -> bool): (r: Option<nat>)
    ensures r.Some? ==> r.value < |candidates| && hit(candidates[r.value])
    ensures r.Some? ==> forall j :: 0 <= j < r.value ==> !hit(candidates[j])
    ensures r.None? ==> forall j :: 0 <= j < |candidates| ==> !hit(candidates[j])
  {
    if candidates == [] then None
    else if hit(candidates[0]) then Some(0)
    else match FirstHit(candidates[1..], hit)
      case None => None
      case Some(k) => Some(k + 1)
  }

  /**
   * `find_mariadb_command()`. `which(cmd)` is `Some(path)` when `which cmd`
   * exits with 0 and its stripped output names an existing path; `None` when
   * it fails, raises, or the path does not exist. The result is the resolved
   * path of the first candidate that resolves, else "mysql".
   */
  function FindMariadbCommand(which: string -> Option<string>): (r: string)
    ensures (forall i :: 0 <= i < |MariadbCommands| ==> which(MariadbCommands[i]).None?) ==> r == FallbackCommand
    ensures forall i :: 0 <= i < |MariadbCommands| && which(MariadbCommands[i]).Some?
                        && (forall j :: 0 <= j < i ==> which(MariadbCommands[j]).None?)
                        ==> r == which(MariadbCommands[i]).value
  {
    match FirstHit(MariadbCommands, cmd => which(cmd).Some?)
    case None => FallbackCommand
    case Some(i) => which(MariadbCommands[i]).value
  }

  /**
   * The probe of `find_mariadb_service()` for one name: `listUnitFiles(unit)`
   * is the standard output of `systemctl list-unit-files unit` when it exits
   * with 0, `None` when it fails or raises; the name counts when that output
   * contains `name + ".service"`.
   */
  predicate ServiceListed(listUnitFiles: string -> Option<string>, name: string)
  {
    var unit := name + ".service";
    listUnitFiles(unit).Some? && Contains(listUnitFiles(unit).value, unit)
  }

  /**
   * `find_mariadb_service()`: the first listed service name, else "mariadb";
   * always one of the three candidate names.
   */
  function FindMariadbService(listUnitFiles: string -> Option<string>): (r: string)
    ensures r in MariadbServices
    ensures (forall i :: 0 <= i < |MariadbServices| ==> !ServiceListed(listUnitFiles, MariadbServices[i]))
            ==> r == FallbackService
    ensures forall i :: 0 <= i < |MariadbServices| && ServiceListed(listUnitFiles, MariadbServices[i])
                        && (forall j :: 0 <= j < i ==> !ServiceListed(listUnitFiles, MariadbServices[j]))
                        ==> r == MariadbServices[i]
  {
    match FirstHit(MariadbServices, name => ServiceListed(listUnitFiles, name))
    case None => FallbackService
    case Some(i) => MariadbServices[i]
  }

  // ---------------------------------------------------------------------
  // The text patches
  // ---------------------------------------------------------------------

  /** Patch 1: the root-password command of `changeMYSQLRootPassword`. */
  const OldChangeMysql: string :=
    "            command = \'mariadb -u root -e \"\' + passwordCMD + \'\"\'\n"
    + "\n"
    + "            install_utils.call(command, self.distro, command, command, 0, 0, os.EX_OSERR)"
  const NewChangeMysql: string :=
    "            # Find the correct MariaDB client command\n"
    + "            mariadb_cmd = find_mariadb_command()\n"
    + "            command = mariadb_cmd + \' -u root -e \"\' + passwordCMD + \'\"\'\n"
    + "\n"
    + "            install_utils.call(command, self.distro, command, command, 0, 0, os.EX_OSERR)"

  /** Patch 2: the service start in `startMariaDB`. */
  const OldStartMariadb: string :=
    "            ############## Start mariadb ######################\n"
    + "            self.manage_service(\'mariadb\', \'start\')"
  const NewStartMariadb: string :=
    "            ############## Start mariadb ######################\n"
    + "            # Find the correct MariaDB service name\n"
    + "            mariadb_service = find_mariadb_service()\n"
    + "            self.manage_service(mariadb_service, \'start\')"

  /** Patch 3: the service enablement. */
  const OldEnableMariadb: string :=
    "            self.manage_service(\'mariadb\', \'enable\')"
  const NewEnableMariadb: string :=
    "            self.manage_service(mariadb_service, \'enable\')"

  /** Patch 4: the two detector functions, inserted before the installer class. */
  const HelperFunctions: string :=
    "\n"
    + "# Helper functions for AlmaLinux 9 compatibility\n"
    + "def find_mariadb_command():\n"
    + "    \"\"\"\n"
    + "    Find the correct MariaDB client command for the current system\n"
    + "    Returns the command path or \'mysql\' as fallback\n"
    + "    \"\"\"\n"
    + "    import subprocess\n"
    + "    import os\n"
    + "    \n"
    + "    # List of possible MariaDB client commands in order of preference\n"
    + "    mariadb_commands = [\'mariadb\', \'mysql\', \'/usr/bin/mariadb\', \'/usr/bin/mysql\']\n"
    + "    \n"
    + "    for cmd in mariadb_commands:\n"
    + "        try:\n"
    + "            # Check if command exists and is executable\n"
    + "            result = subprocess.run([\'which\', cmd], capture_output=True, text=True)\n"
    + "            if result.returncode == 0 and os.path.exists(result.stdout.strip()):\n"
    + "                return result.stdout.strip()\n"
    + "        except:\n"
    + "            continue\n"
    + "    \n"
    + "    # If no command found, return \'mysql\' as fallback\n"
    + "    return \'mysql\'\n"
    + "\n"
    + "def find_mariadb_service():\n"
    + "    \"\"\"\n"
    + "    Find the correct MariaDB service name for the current system\n"
    + "    Returns the service name or \'mariadb\' as fallback\n"
    + "    \"\"\"\n"
    + "    import subprocess\n"
    + "    \n"
    + "    # List of possible MariaDB service names in order of preference\n"
    + "    service_names = [\'mariadb\', \'mysqld\', \'mysql\']\n"
    + "    \n"
    + "    for service in service_names:\n"
    + "        try:\n"
    + "            # Check if service exists\n"
    + "            result = subprocess.run([\'systemctl\', \'list-unit-files\', service + \'.service\'], \n"
    + "                                  capture_output=True, text=True)\n"
    + "            if result.returncode == 0 and service + \'.service\' in result.stdout:\n"
    + "                return service\n"
    + "        except:\n"
    + "            continue\n"
    + "    \n"
    + "    # If no service found, return \'mariadb\' as fallback\n"
    + "    return \'mariadb\'\n"
    + "\n"

  /** The marker patch 4 inserts the helper block in front of. */
  const ClassAnchor: string := "\nclass InstallCyberPanel:"

  /**
   * Patch 4: `content[:i] + block + content[i:]` where `i` is the first
   * index of `anchor`; the text is unchanged when the anchor is absent.
   */
  function InsertBeforeAnchor(content: string, anchor: string, block: string): (r: string)
    ensures Find(content, anchor).None? ==> r == content
    ensures Find(content, anchor).Some? ==> |r| == |content| + |block|
  {
    match Find(content, anchor)
    case None => content
    case Some(i) => content[..i] + block + content[i..]
  }

  /** The text after patches 1, 2 and 3, in that order. */
  function AfterReplacements(content: string): string
  {
    var afterPatch1 := ReplaceAll(content, OldChangeMysql, NewChangeMysql);
    var afterPatch2 := ReplaceAll(afterPatch1, OldStartMariadb, NewStartMariadb);
    ReplaceAll(afterPatch2, OldEnableMariadb, NewEnableMariadb)
  }

  /** The text the patcher writes back: patches 1 to 4 composed in order. */
  function PatchedText(content: string): string
  {
    InsertBeforeAnchor(AfterReplacements(content), ClassAnchor, HelperFunctions)
  }

  /** Length facts about the fixed fragments the patcher relies on. */
  lemma FragmentLengths()
    ensures OldChangeMysql != "" && OldStartMariadb != "" && OldEnableMariadb != ""
    ensures |NewChangeMysql| >= |OldChangeMysql|
    ensures |NewStartMariadb| >= |OldStartMariadb|
    ensures |NewEnableMariadb| >= |OldEnableMariadb|
    ensures |HelperFunctions| > 0
  {
  }

  /**
   * One of patches 1-3 as the source writes it: if `target` is in the text,
   * replace it everywhere; `found` selects the "Applied" or "WARNING" line.
   */
  method ApplyReplacement(content: string, target: string, replacement: string)
    returns (patched: string, found: bool)
    requires target != ""
    ensures found <==> Contains(content, target)
    ensures patched == ReplaceAll(content, target, replacement)
    ensures !found ==> patched == content
  {
    found := Contains(content, target);
    if found {
      patched := ReplaceAll(content, target, replacement);
    } else {
      patched := content;
    }
  }

  /**
   * `patch_installCyberPanel()`. `fileExists` and `original` stand for the
   * installer file; `written` is what is written back (`None`: nothing is
   * written) and `applied` the four "Applied patch" / "WARNING" outcomes.
   */
  method PatchInstallCyberPanel(fileExists: bool, original: string)
    returns (ok: bool, written: Option<string>, applied: seq<bool>)
    ensures ok == fileExists
    ensures !fileExists ==> written == None && applied == []
    ensures fileExists ==> written == Some(PatchedText(original))
    ensures fileExists ==>
              var afterPatch1 := ReplaceAll(original, OldChangeMysql, NewChangeMysql);
              var afterPatch2 := ReplaceAll(afterPatch1, OldStartMariadb, NewStartMariadb);
              applied == [Contains(original, OldChangeMysql), Contains(afterPatch1, OldStartMariadb),
                          Contains(afterPatch2, OldEnableMariadb), Contains(AfterReplacements(original), ClassAnchor)]
  {
    if !fileExists {
      return false, None, [];
    }
    FragmentLengths();
    var content, found1, found2, found3;
    content, found1 := ApplyReplacement(original, OldChangeMysql, NewChangeMysql);
    content, found2 := ApplyReplacement(content, OldStartMariadb, NewStartMariadb);
    content, found3 := ApplyReplacement(content, OldEnableMariadb, NewEnableMariadb);
    var anchorAt := Find(content, ClassAnchor);
    if anchorAt.Some? {
      content := content[..anchorAt.value] + HelperFunctions + content[anchorAt.value..];
    }
    return true, Some(content), [found1, found2, found3, anchorAt.Some?];
  }

  // ---------------------------------------------------------------------
  // Properties of the patches
  // ---------------------------------------------------------------------

  /**
   * Each of patches 1-3 splits the text at the occurrences of its fragment
   * and glues the pieces back with the new fragment: gluing them with the old
   * fragment gives the original, no piece contains the old fragment, and a
   * text without the fragment is left as it is.
   */
  lemma ReplacementPatch(content: string, target: string, replacement: string)
    requires target != ""
    ensures var pieces := Split(content, target);
            && Join(pieces, target) == content
            && (forall i :: 0 <= i < |pieces| ==> !Contains(pieces[i], target))
            && ReplaceAll(content, target, replacement) == Join(pieces, replacement)
    ensures !Contains(content, target) ==> ReplaceAll(content, target, replacement) == content
    ensures Contains(content, target) <==> Count(content, target) >= 1
  {
    SplitJoinRoundTrip(content, target);
  }

  /**
   * After patch 4 the helper block sits right before the anchor, the text
   * from the anchor on is unchanged and the anchor is still there.
   */
  lemma HelperInsertedBeforeAnchor(content: string, anchor: string, block: string)
    requires Contains(content, anchor)
    ensures var i := Find(content, anchor).value;
            var r := InsertBeforeAnchor(content, anchor, block);
            && r[..i] == content[..i]
            && r[i..i + |block|] == block
            && r[i + |block|..] == content[i..]
            && OccursAt(r, anchor, i + |block|)
            && Contains(r, anchor)
  {
    var i := Find(content, anchor).value;
    var r := InsertBeforeAnchor(content, anchor, block);
    assert r[i + |block|..] == content[i..];
    assert r[i + |block|..][..|anchor|] == content[i..][..|anchor|];
    assert OccursAt(r, anchor, i + |block|);
  }

  /**
   * Patch 4 is not idempotent: a second run finds the anchor again and
   * inserts the helper block a second time.
   */
  lemma InsertionRepeatsOnRerun(content: string, anchor: string, block: string)
    requires Contains(content, anchor)
    ensures var once := InsertBeforeAnchor(content, anchor, block);
            |InsertBeforeAnchor(once, anchor, block)| == |content| + 2 * |block|
    ensures block != "" ==>
              var once := InsertBeforeAnchor(content, anchor, block);
              InsertBeforeAnchor(once, anchor, block) != once
  {
    HelperInsertedBeforeAnchor(content, anchor, block);
  }

  /** Every new fragment is at least as long as the one it replaces. */
  lemma ReplacementsNeverShrink(content: string)
    ensures |AfterReplacements(content)| >= |content|
  {
    FragmentLengths();
    var afterPatch1 := ReplaceAll(content, OldChangeMysql, NewChangeMysql);
    var afterPatch2 := ReplaceAll(afterPatch1, OldStartMariadb, NewStartMariadb);
    ReplacementNeverShrinks(content, OldChangeMysql, NewChangeMysql);
    ReplacementNeverShrinks(afterPatch1, OldStartMariadb, NewStartMariadb);
    ReplacementNeverShrinks(afterPatch2, OldEnableMariadb, NewEnableMariadb);
  }

  lemma ReplacementNeverShrinks(content: string, target: string, replacement: string)
    requires target != "" && |replacement| >= |target|
    ensures |ReplaceAll(content, target, replacement)| >= |content|
  {
    ReplaceAllLength(content, target, replacement);
    var n: nat, d: nat := Count(content, target), |replacement| - |target|;
    assert n * d >= 0;
  }

  /**
   * The whole patcher is not idempotent either: whenever a rerun still
   * finds the anchor after patches 1-3, it writes a longer text than before.
   */
  lemma PatcherNotIdempotent(content: string)
    ensures Contains(AfterReplacements(PatchedText(content)), ClassAnchor) ==>
              |PatchedText(PatchedText(content))| >= |PatchedText(content)| + |HelperFunctions|
              && PatchedText(PatchedText(content)) != PatchedText(content)
  {
    ReplacementsNeverShrink(PatchedText(content));
  }
}
