/** The contact page: the message record the form builds and how it is
    stored. */
module Contact {
  import opened Wrappers
  import opened JsText
  import opened Records
  import opened Storage
  import Admin

  /** The raw values of the four contact-form inputs. */
  datatype ContactForm = ContactForm(name: string, email: string, subject: string, message: string)

  /** The record the contact form builds: the four inputs trimmed, and the
      message already marked read. */
  function NewMessage(form: ContactForm, id: string, date: string): (m: ContactMessage)
    ensures m.id == id && m.date == date && m.read
    ensures m.name == Trim(form.name) && m.email == Trim(form.email)
    ensures m.subject == Trim(form.subject) && m.message == Trim(form.message)
    ensures IsTrimmed(m.name) && IsTrimmed(m.email) && IsTrimmed(m.subject) && IsTrimmed(m.message)
    ensures |m.name| <= |form.name| && |m.email| <= |form.email|
    ensures |m.subject| <= |form.subject| && |m.message| <= |form.message|
    ensures forall c :: !IsWhitespace(c) ==> (c in m.email <==> c in form.email)
  {
    forall c | !IsWhitespace(c) ensures c in Trim(form.email) <==> c in form.email {
      TrimKeepsNonWhitespace(form.email, c);
    }
    ContactMessage(id, Trim(form.name), Trim(form.email), Trim(form.subject), Trim(form.message), date, true)
  }

  /** `saveContactMessage(message)`: prepends the message to the stored array. */
  method SaveContactMessage(st: LocalStorage, message: ContactMessage)
    modifies st`messages, st`writes
    ensures st.messages == Some([message] + old(st.Messages()))
    ensures st.writes == old(st.writes) + [MessagesKey]
  {
    var messages := st.Messages();
    messages := [message] + messages;
    st.SaveMessages(messages);
  }

  /** The contact form's submit handler, once its one-second delay has run. */
  method SubmitContact(st: LocalStorage, form: ContactForm, id: string, date: string)
    modifies st`messages, st`writes
    ensures st.messages == Some([NewMessage(form, id, date)] + old(st.Messages()))
    ensures |st.Messages()| == |old(st.Messages())| + 1
    ensures st.writes == old(st.writes) + [MessagesKey]
  {
    SaveContactMessage(st, NewMessage(form, id, date));
  }

  /** Messages from the contact form arrive read, so when the admin inbox
      holds only read messages, it still does after a submission, and
      opening it finds nothing to repair. */
  lemma SubmittedMessageNeedsNoRepair(form: ContactForm, id: string, date: string, inbox: seq<ContactMessage>)
    requires Admin.AllRead(inbox) == inbox
    ensures Admin.AllRead([NewMessage(form, id, date)] + inbox) == [NewMessage(form, id, date)] + inbox
  {
    var m := NewMessage(form, id, date);
    var s := [m] + inbox;
    Admin.AllReadUnchangedIffNoneUnread(inbox);
    forall i | 0 <= i < |s| ensures s[i].read {
      if i > 0 {
        assert s[i] == inbox[i - 1];
      }
    }
    Admin.AllReadUnchangedIffNoneUnread(s);
  }
}
