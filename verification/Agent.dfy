/** The report vocabulary shared by the question machine and the waiting rules. */
module Agent {
  import opened Text

  datatype Activity = Working | Idle | Blocked | Done | Waiting | Unknown

  /** A status hook's metadata (`src/agent/status_hook.rs`), as far as the report rules read it. */
  datatype HookEvent = HookEvent(
    name: string,
    tool: Option<string>,
    turn: Option<string>,
    call: Option<string>,
    fullyIdle: Option<bool>,
    backgroundTasks: Option<nat>,
    sessionCrons: Option<nat>)
}
