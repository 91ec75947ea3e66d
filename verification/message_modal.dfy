/**
 * The contact-seller dialog: the send guards, the message record it inserts,
 * and the reset of subject and content after sending or closing.
 */
module MessageModal {
  import opened Wrappers
  import opened Text

  /** What the listing page passes to the dialog. */
  datatype Props = Props(listingId: string, listingTitle: string, recipientId: string, recipientName: string)

  /** The dialog's editable fields. */
  datatype Fields = Fields(subject: string, content: string)

  /** The row inserted into the message table. */
  datatype MessageInsert = MessageInsert(sender: string, recipient: string, listingId: string,
                                         subject: string, content: string)

  datatype SendOutcome =
    | LoginRequired
    | EmptyMessage
      /** The insert succeeded; the dialog closes with fresh fields. */
    | Sent(record: MessageInsert, next: Fields)
      /** The insert failed; the dialog stays open with the text as typed. */
    | SendFailed(record: MessageInsert, next: Fields)

  /** The subject the dialog starts with: "Interest in: " and the listing title. */
  function DefaultSubject(listingTitle: string): (s: string)
    ensures |s| == |"Interest in: "| + |listingTitle|
    ensures s[..|"Interest in: "|] == "Interest in: "
    ensures s[|"Interest in: "|..] == listingTitle
  {
    "Interest in: " + listingTitle
  }

  /** The fields when the dialog first renders, and after every reset. */
  function Fresh(p: Props): (f: Fields)
    ensures f.content == []
    ensures f.subject == DefaultSubject(p.listingTitle)
  {
    Fields(DefaultSubject(p.listingTitle), [])
  }

  /**
   * `handleSend`. `insertSucceeded` stands for the outcome of the insert into the
   * message table.
   */
  function HandleSend(user: Option<string>, p: Props, f: Fields, insertSucceeded: bool): (r: SendOutcome)
    ensures r == LoginRequired <==> user.None?
    ensures r == EmptyMessage <==> user.Some? && IsBlank(f.content)
    ensures r.Sent? || r.SendFailed? ==>
              r.record == MessageInsert(user.value, p.recipientId, p.listingId, Trim(f.subject), Trim(f.content))
    ensures r.Sent? <==> user.Some? && !IsBlank(f.content) && insertSucceeded
    ensures r.Sent? ==> r.next == Fresh(p)
    ensures r.SendFailed? ==> r.next == f
  {
    match user
    case None => LoginRequired
    case Some(u) =>
      if IsBlank(f.content) then EmptyMessage
      else
        var record := MessageInsert(u, p.recipientId, p.listingId, Trim(f.subject), Trim(f.content));
        if insertSucceeded then Sent(record, Fresh(p)) else SendFailed(record, f)
  }

  /** `handleClose`: whatever was typed is discarded. */
  function HandleClose(p: Props, f: Fields): (r: Fields)
    ensures r.content == [] && r.subject == DefaultSubject(p.listingTitle)
  {
    Fresh(p)
  }

  /** The Send button: disabled while sending or while the content is blank. */
  predicate SendEnabled(isLoading: bool, f: Fields) {
    !isLoading && !IsBlank(f.content)
  }

  /** A signed-in user pressing an enabled Send button always reaches the insert. */
  lemma EnabledSendInserts(user: string, p: Props, f: Fields, insertSucceeded: bool)
    requires SendEnabled(false, f)
    ensures var r := HandleSend(Some(user), p, f, insertSucceeded);
            r.Sent? || r.SendFailed?
  {
  }

  /** The stored content is itself never blank, and already trimmed. */
  lemma InsertedContentNotBlank(user: Option<string>, p: Props, f: Fields, insertSucceeded: bool)
    requires HandleSend(user, p, f, insertSucceeded).Sent?
    ensures var c := HandleSend(user, p, f, insertSucceeded).record.content;
            !IsBlank(c) && Trim(c) == c
  {
    TrimIdempotent(f.content);
  }
}
