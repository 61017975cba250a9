/** The local encrypt/decrypt panel (src/gui/localencdec.rs): the output
    file name it proposes, the button's gate, the argument vector, the
    outcome lines appended to the status, and the polling that ends the
    busy state. Path joining and the file name of a path are given as
    inputs. */
module LocalCrypt {
  import opened Options
  import opened Text
  import Cli

  /** The mode selector: 0 encrypts, any other value decrypts. */
  predicate Encrypting(mode: nat)
  {
    mode == 0
  }

  const EncSuffix := ".enc"
  const DecryptedPrefix := "decrypted_"

  /** The output file name proposed for an input file name. */
  function OutputName(mode: nat, inputName: string): (r: string)
    ensures Encrypting(mode) ==> r == inputName + EncSuffix
    ensures !Encrypting(mode) && EndsWith(inputName, EncSuffix) ==>
      r == TrimEndMatches(inputName, EncSuffix) && !EndsWith(r, EncSuffix)
    ensures !Encrypting(mode) && !EndsWith(inputName, EncSuffix) ==> r == DecryptedPrefix + inputName
  {
    if Encrypting(mode) then inputName + EncSuffix
    else if EndsWith(inputName, EncSuffix) then TrimEndMatches(inputName, EncSuffix)
    else DecryptedPrefix + inputName
  }

  /** Decrypting the name proposed for an encrypted file gives the
      original name back exactly when that name does not itself end in
      `.enc`: every trailing `.enc` is removed, not just one. */
  lemma OutputNameRoundTrip(name: string)
    ensures OutputName(1, OutputName(0, name)) == name <==> !EndsWith(name, EncSuffix)
  {
    var enc := name + EncSuffix;
    assert enc[|enc| - 4..] == EncSuffix;
    assert enc[..|enc| - 4] == name;
    if !EndsWith(name, EncSuffix) {
      assert TrimEndMatches(enc, EncSuffix) == TrimEndMatches(name, EncSuffix);
    }
  }

  /** The process button is enabled while nothing runs and every field is
      filled in. */
  predicate CanProcess(processing: bool, input: string, folder: string, fileName: string, password: string)
  {
    !processing && input != "" && folder != "" && fileName != "" && password != ""
  }

  /** `encrypt-local` or `decrypt-local`, then input, output path and the
      password flag (the `pipe` program on the path). */
  function CryptArgs(mode: nat, input: string, outputPath: string, password: string): (r: seq<string>)
    ensures |r| == 5 && r[1..] == [input, outputPath, "--password", password]
    ensures r[0] == (if Encrypting(mode) then "encrypt-local" else "decrypt-local")
  {
    [if Encrypting(mode) then "encrypt-local" else "decrypt-local", input, outputPath, "--password", password]
  }

  datatype CryptState = CryptState(status: string, processing: bool, success: bool, lastOutput: Option<string>)

  const RequiredText := "Input file, output folder, output filename, and password are required.\n"
  const CompletedText := "✅ Process completed successfully!"
  const CheckOutputText := "Check your output file for results.\n"
  const FailedPrefix := "❌ Process failed: "
  const SpawnFailedPrefix := "❌ Failed to run CLI: "

  /** The click while not busy: a missing field only sets the status;
      otherwise the panel becomes busy, remembers the output path (the
      folder joined with the file name, given as `joined`) and writes the
      processing header. */
  function Start(st: CryptState, input: string, folder: string, fileName: string, password: string, joined: string): (r: CryptState)
    requires !st.processing
    ensures (input == "" || folder == "" || fileName == "" || password == "") ==> r == st.(status := RequiredText)
    ensures CanProcess(st.processing, input, folder, fileName, password) ==>
      r.processing && !r.success && r.lastOutput == Some(joined) &&
      r.status == "Processing...\nInput file: " + input + "\nOutput file: " + joined + "\n"
  {
    if input == "" || folder == "" || fileName == "" || password == "" then st.(status := RequiredText)
    else CryptState("Processing...\nInput file: " + input + "\nOutput file: " + joined + "\n", true, false, Some(joined))
  }

  /** The outcome lines the thread appends: the completion line and the
      reminder on success, otherwise one line carrying the command's error
      text after its prefix. */
  function Outcome(run: Cli.Run): (r: string)
    ensures EndsWith(r, "\n")
    ensures run.Finished? && run.success ==> StartsWith(r, CompletedText + "\n") && EndsWith(r, CheckOutputText)
    ensures run.Finished? && !run.success ==> StartsWith(r, FailedPrefix) && r[|FailedPrefix|..] == run.stderr + "\n"
    ensures run.SpawnError? ==> StartsWith(r, SpawnFailedPrefix) && r[|SpawnFailedPrefix|..] == run.error + "\n"
  {
    match run
    case Finished(success, _, err) =>
      if success then CompletedText + "\n" + CheckOutputText else FailedPrefix + err + "\n"
    case SpawnError(e) => SpawnFailedPrefix + e + "\n"
  }

  /** The gate and the click together: while idle, the button is enabled
      exactly when its click starts a run, so the required-fields message
      is never reached through the button; a started run closes the gate. */
  lemma ProcessGate(st: CryptState, input: string, folder: string, fileName: string, password: string, joined: string)
    requires !st.processing
    ensures CanProcess(st.processing, input, folder, fileName, password) <==>
      Start(st, input, folder, fileName, password, joined).processing
    ensures !CanProcess(Start(st, input, folder, fileName, password, joined).processing, input, folder, fileName, password)
  {
  }

  /** The thread only appends to the status, never replaces it. */
  function Finish(status: string, run: Cli.Run): (r: string)
    ensures |r| > |status| && r[..|status|] == status
  {
    status + Outcome(run)
  }

  /** The poll in each frame: a busy panel whose status holds the
      completion text or a cross stops being busy, and counts as a success
      when the status holds a check mark. */
  function Poll(st: CryptState): (r: CryptState)
    ensures r.status == st.status && r.lastOutput == st.lastOutput
    ensures r.processing <==> st.processing && !(Contains(st.status, CompletedText) || Contains(st.status, "❌"))
  {
    if st.processing && (Contains(st.status, CompletedText) || Contains(st.status, "❌")) then
      st.(processing := false, success := Contains(st.status, "✅"))
    else st
  }

  /** Marks the outcome text may carry from the command's own output. */
  predicate Unmarked(s: string)
  {
    '✅' !in s && '❌' !in s
  }

  lemma ContainsMark(s: string, c: char)
    ensures Contains(s, [c]) <==> c in s
  {
    if c in s {
      var i :| 0 <= i < |s| && s[i] == c;
      assert OccursAt(s, [c], i);
    }
    if Contains(s, [c]) {
      var i :| 0 <= i <= |s| && OccursAt(s, [c], i);
      assert s[i] == s[i..i + 1][0];
    }
  }

  /** What the outcome says: success starts with the completion text, a
      failure starts with a cross, and only a check mark in the success
      text or in the command's own words can appear. */
  lemma OutcomeMarks(run: Cli.Run)
    requires run.Finished? ==> Unmarked(run.stderr)
    requires run.SpawnError? ==> Unmarked(run.error)
    ensures var o := Outcome(run);
      if run.Finished? && run.success then StartsWith(o, CompletedText) && '✅' in o
      else |o| > 0 && o[0] == '❌' && '✅' !in o
  {
    var o := Outcome(run);
    if run.Finished? && run.success {
      assert o[..|CompletedText|] == CompletedText;
      assert o[0] == '✅';
    } else if run.Finished? {
      assert o == FailedPrefix + run.stderr + "\n";
      assert forall i :: 0 <= i < |FailedPrefix| ==> FailedPrefix[i] != '✅';
    } else {
      assert o == SpawnFailedPrefix + run.error + "\n";
      assert forall i :: 0 <= i < |SpawnFailedPrefix| ==> SpawnFailedPrefix[i] != '✅';
    }
  }

  /** The poll reads a status `pre + o` through the marks `o` carries. */
  lemma PollOfAppended(st: CryptState, pre: string, o: string)
    requires st.processing && Unmarked(pre) && st.status == pre + o
    requires (StartsWith(o, CompletedText) && '✅' in o) || (|o| > 0 && o[0] == '❌' && '✅' !in o)
    ensures var r := Poll(st); !r.processing && (r.success <==> StartsWith(o, CompletedText))
  {
    var s := st.status;
    ContainsMark(s, '✅');
    ContainsMark(s, '❌');
    assert "✅" == ['✅'] && "❌" == ['❌'];
    if StartsWith(o, CompletedText) {
      assert s[|pre|..|pre| + |CompletedText|] == o[..|CompletedText|];
      assert OccursAt(s, CompletedText, |pre|);
      assert s[|pre|] == '✅';
    } else {
      assert s[|pre|] == '❌';
      assert o[0] != CompletedText[0];
    }
  }

  /** When neither the status before the run nor the command's error text
      carries a mark, the first poll after the run ends the busy state and
      records exactly whether the command succeeded. */
  lemma PollAfterFinish(st: CryptState, run: Cli.Run)
    requires st.processing && Unmarked(st.status)
    requires run.Finished? ==> Unmarked(run.stderr)
    requires run.SpawnError? ==> Unmarked(run.error)
    ensures var r := Poll(st.(status := Finish(st.status, run)));
      !r.processing && (r.success <==> run.Finished? && run.success)
  {
    var o := Outcome(run);
    OutcomeMarks(run);
    if !(run.Finished? && run.success) {
      assert o[0] != CompletedText[0];
    }
    PollOfAppended(st.(status := Finish(st.status, run)), st.status, o);
  }
}
