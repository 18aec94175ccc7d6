/** The message table, and the SMTP session that fills it (pkg/smtp/server.go). */
module Storage {

  /** A row of smtp_messages; its id is its position, as rows are only ever appended. */
  datatype Row = Row(to: string, sender: string, subject: string, body: string, processed: bool, createdAt: int)

  class Database {
    var rows: seq<Row>

    constructor ()
      ensures rows == []
    {
      rows := [];
    }

    /** gorm's Create; `ok` is the database's verdict. */
    method Create(row: Row, ok: bool) returns (stored: bool)
      modifies this
      ensures rows == (if ok then old(rows) + [row] else old(rows)) && stored == ok
    {
      if ok {
        rows := rows + [row];
      }
      return ok;
    }

    /** gorm's Save of a whole row. */
    method Save(id: nat, row: Row, ok: bool) returns (saved: bool)
      requires id < |rows|
      modifies this
      ensures rows == (if ok then old(rows)[id := row] else old(rows)) && saved == ok
    {
      if ok {
        rows := rows[id := row];
      }
      return ok;
    }
  }
}

module Intake {
  import opened Common
  import opened Storage
  import opened Processing
  import MailText

  ghost predicate AllLocal(addresses: seq<string>, host: string) {
    forall a | a in addresses :: IsValidEmail(a, "@" + host)
  }

  /** What the database answers to one Create: success or not, and the creation time. */
  datatype Verdict = Verdict(ok: bool, now: int)

  /** How many rows are stored before the first failure. */
  function StoredCount(verdicts: seq<Verdict>): (n: nat)
    ensures n <= |verdicts|
    ensures forall k | 0 <= k < n :: verdicts[k].ok
    ensures n < |verdicts| ==> !verdicts[n].ok
  {
    if verdicts == [] || !verdicts[0].ok then 0 else 1 + StoredCount(verdicts[1..])
  }

  /** One row per recipient, in order, with the same sender, subject and body. */
  function RowsFor(sender: string, to: seq<string>, text: string, verdicts: seq<Verdict>): seq<Row>
    requires |verdicts| == |to|
  {
    seq(|to|, i requires 0 <= i < |to| =>
      Row(to[i], sender, MailText.ExtractSubject(text), MailText.ExtractBody(text), false, verdicts[i].now))
  }

  class Session {
    const host: string
    var sender: string
    var to: seq<string>

    ghost predicate Valid()
      reads this
    {
      AllLocal(to, host)
    }

    constructor (host: string)
      ensures Valid() && this.host == host && sender == "" && to == []
    {
      this.host, sender, to := host, "", [];
    }

    method Mail(sender: string)
      requires Valid()
      modifies this`sender
      ensures Valid() && this.sender == sender
    {
      this.sender := sender;
    }

    /** A recipient is accepted exactly when, without its angle brackets, it is local. */
    method Rcpt(to: string) returns (accepted: bool)
      requires Valid()
      modifies this`to
      ensures Valid()
      ensures accepted <==> exists local :: TrimAngles(to) == local + "@" + host
      ensures this.to == if accepted then old(this.to) + [TrimAngles(to)] else old(this.to)
    {
      var email := TrimAngles(to);
      SameRecipientsAccepted(email, host);
      var suffix := "@" + host;
      if !IsValidEmail(email, suffix) {
        return false;
      }
      this.to := this.to + [email];
      return true;
    }

    /** A text that cannot be read stores nothing. Otherwise the rows of the accepted recipients are
        stored in order up to the first failing Create, which fails the command. */
    method Data(db: Database, text: Option<string>, verdicts: seq<Verdict>) returns (ok: bool)
      requires Valid() && |verdicts| == |to|
      modifies db
      ensures text.None? ==> !ok && db.rows == old(db.rows)
      ensures text.Some? ==>
                db.rows == old(db.rows) + RowsFor(sender, to, text.value, verdicts)[..StoredCount(verdicts)]
      ensures text.Some? ==>
                forall k | 0 <= k < StoredCount(verdicts) ::
                  && |old(db.rows)| + k < |db.rows|
                  && var row := db.rows[|old(db.rows)| + k];
                     && row.to == to[k] && row.sender == sender
                     && row.subject == MailText.ExtractSubject(text.value)
                     && row.body == MailText.ExtractBody(text.value)
                     && !row.processed && row.createdAt == verdicts[k].now
      ensures text.Some? ==> (ok <==> StoredCount(verdicts) == |to|)
      ensures forall k :: |old(db.rows)| <= k < |db.rows| ==> IsValidEmail(db.rows[k].to, "@" + host)
    {
      if text.None? {
        return false;
      }
      var subject := MailText.ExtractSubject(text.value);
      var messageBody := MailText.ExtractBody(text.value);
      ghost var rows := RowsFor(sender, to, text.value, verdicts);
      ghost var n := StoredCount(verdicts);
      for i := 0 to |to|
        invariant i <= n
        invariant db.rows == old(db.rows) + rows[..i]
      {
        var recipient := to[i];
        var stored := db.Create(Row(recipient, sender, subject, messageBody, false, verdicts[i].now), verdicts[i].ok);
        if !stored {
          assert n == i;
          assert forall k | 0 <= k < n :: rows[k].to == to[k] && to[k] in to;
          return false;
        }
        assert rows[..i + 1] == rows[..i] + [rows[i]];
      }
      assert forall k | 0 <= k < |to| :: rows[k].to == to[k] && to[k] in to;
      return true;
    }

    method Reset()
      modifies this
      ensures Valid() && sender == "" && to == []
    {
      sender, to := "", [];
    }
  }
}
