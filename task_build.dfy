/** The build task: work on the first construction site the room lists. */
module Build {
  import opened Common
  import opened World

  /** `TaskBuild::run`: handled exactly when the room has a construction
      site; the site worked on is the first one listed (`sites.get(0)`),
      not the closest, and only a `NotInRange` reply adds a move. */
  function Run(c: CreepView): (st: Step)
    ensures st.result.Ok?
    ensures st.result.value <==> |c.room.sites| > 0
    ensures |c.room.sites| == 0 ==> st.actions == []
    ensures |c.room.sites| > 0 ==>
      st.actions == ActOrApproach(BuildAt(c.room.sites[0]), c.room.sites[0], c.replies.build)
  {
    if |c.room.sites| == 0 then Step(Ok(false), [])
    else
      var site := c.room.sites[0];
      Step(Ok(true), ActOrApproach(BuildAt(site), site, c.replies.build))
  }
}
