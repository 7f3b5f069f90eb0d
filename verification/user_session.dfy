/** The record one line of `quser` output becomes. */
module Sessions {
  import opened Outcomes

  /** One interactive session on one host. The six text columns come from
      the tool's output; `computerName` stays unset (`None`, the C# null)
      until the search stamps the host that reported the session. */
  datatype UserSession = UserSession(
    username: string,
    sessionName: string,
    id: string,
    state: string,
    idleTime: string,
    logonTime: string,
    computerName: Option<string>)
}
