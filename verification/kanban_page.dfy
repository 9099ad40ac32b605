/** The board page: which mailbox is selected, the emails handed to the board and
    the mailbox named in the header. */
module KanbanPage {
  import opened Wrappers
  import opened Emails

  /** The selection effect: when mailboxes have loaded and nothing is selected yet,
      the first mailbox is selected; an existing selection is never replaced. */
  function AutoSelect(mailboxes: seq<Mailbox>, selected: Option<int>): (r: Option<int>)
    ensures selected.Some? ==> r == selected
    ensures selected.None? && |mailboxes| > 0 ==> r == Some(mailboxes[0].id)
    ensures selected.None? && mailboxes == [] ==> r == None
  {
    if |mailboxes| > 0 && selected.None? then Some(mailboxes[0].id) else selected
  }

  /** Running the effect again after it has fired changes nothing, so it settles
      after one step. */
  lemma AutoSelectSettles(mailboxes: seq<Mailbox>, selected: Option<int>)
    ensures AutoSelect(mailboxes, AutoSelect(mailboxes, selected)) == AutoSelect(mailboxes, selected)
  {
  }

  /** `emailData?.data || []`: the board gets an empty list until the page arrives. */
  function BoardEmails(page: Option<seq<Email>>): (r: seq<Email>)
    ensures page.None? ==> r == []
    ensures page.Some? ==> r == page.value
  {
    page.GetOr([])
  }

  /** `mailboxes.find(m => m.id === selectedMailboxId)`: the first mailbox with the
      selected id, none when nothing is selected or no mailbox has that id. */
  function CurrentMailbox(mailboxes: seq<Mailbox>, selected: Option<int>): (r: Option<Mailbox>)
    ensures r.None? <==> selected.None? || forall m :: m in mailboxes ==> m.id != selected.value
    ensures r.Some? ==> exists i :: 0 <= i < |mailboxes| && mailboxes[i] == r.value
                                  && Some(r.value.id) == selected
                                  && forall j :: 0 <= j < i ==> mailboxes[j].id != selected.value
  {
    if selected.None? || mailboxes == [] then None
    else if mailboxes[0].id == selected.value then Some(mailboxes[0])
    else
      var rest := CurrentMailbox(mailboxes[1..], selected);
      assert forall j :: 0 < j < |mailboxes| ==> mailboxes[j] == mailboxes[1..][j - 1];
      assert forall m :: m in mailboxes[1..] ==> m in mailboxes;
      rest
  }

  /** Once the mailboxes load with nothing selected, the header names the first one. */
  lemma FirstMailboxShown(mailboxes: seq<Mailbox>)
    requires |mailboxes| > 0
    ensures CurrentMailbox(mailboxes, AutoSelect(mailboxes, None)) == Some(mailboxes[0])
  {
  }
}
