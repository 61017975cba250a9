/** The login panel (src/gui/login.rs): the button's gate, the `login`
    argument vector, and the status text the command thread leaves. */
module Login {
  import opened Options
  import opened Text
  import Cli

  datatype LoginState = LoginState(status: string, loading: bool)

  const SuccessText := "✅ Login successful!"
  const FailedPrefix := "❌ Login failed: "
  const SpawnFailedPrefix := "❌ Failed to run CLI: "

  /** The login button is enabled while no login runs and both fields are
      filled in. */
  predicate CanLogin(loading: bool, username: string, password: string)
  {
    !loading && username != "" && password != ""
  }

  /** `login user --api url --password pw`, in this order. */
  function LoginArgs(username: string, api: string, password: string): (r: seq<string>)
    ensures |r| == 6 && r[0] == "login" && r[1] == username
  {
    ["login", username, "--api", api, "--password", password]
  }

  /** The command reads back the endpoint and the password given. */
  lemma LoginArgsRead(username: string, api: string, password: string)
    ensures Cli.FlagValue(LoginArgs(username, api, password)[2..], "--api") == Some(api)
    ensures Cli.FlagValue(LoginArgs(username, api, password)[2..], "--password") == Some(password)
  {
    var opts := LoginArgs(username, api, password)[2..];
    assert opts == ["--api", api] + ["--password", password];
    var none: seq<string> := [];
    assert ["--password", password] == ["--password", password] + none;
    Cli.FlagValueCons("--api", "--api", api, ["--password", password]);
    Cli.FlagValueCons("--password", "--api", api, ["--password", password]);
    Cli.FlagValueCons("--password", "--password", password, none);
  }

  /** The click marks a login as running. */
  function StartLogin(st: LoginState): (r: LoginState)
    ensures r.loading && r.status == st.status
  {
    st.(loading := true)
  }

  function ResultText(run: Cli.Run): (r: string)
    ensures run.Finished? && run.success ==> r == SuccessText
    ensures run.Finished? && !run.success ==> r == FailedPrefix + run.stderr
    ensures run.SpawnError? ==> r == SpawnFailedPrefix + run.error
  {
    match run
    case Finished(success, _, err) => if success then SuccessText else FailedPrefix + err
    case SpawnError(e) => SpawnFailedPrefix + e
  }

  /** The thread replaces the status with the result and then ends the
      loading state. */
  function FinishLogin(st: LoginState, run: Cli.Run): (r: LoginState)
    ensures !r.loading && r.status == ResultText(run)
  {
    LoginState(ResultText(run), false)
  }

  /** The status starts with the check mark exactly when the login
      succeeded. */
  lemma ResultMarksSuccess(run: Cli.Run)
    ensures StartsWith(ResultText(run), "✅") <==> run.Finished? && run.success
  {
    var r := ResultText(run);
    if !(run.Finished? && run.success) {
      assert r[0] == '❌';
    }
  }

  /** The button's gate across one login: the click closes it, so no second
      login starts while one runs, and once the login ends it is open again
      exactly when both fields are filled in, whatever the result. */
  lemma FinishReenables(st: LoginState, run: Cli.Run, username: string, password: string)
    ensures !CanLogin(StartLogin(st).loading, username, password)
    ensures CanLogin(FinishLogin(StartLogin(st), run).loading, username, password) <==>
      username != "" && password != ""
  {
  }
}
