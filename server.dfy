/**
 * The REST handlers of server.js as operations on the JSON document kept in
 * data.json. Every handler reads the whole document (readData); the handlers
 * that change it (registration, a user update that finds its user, publishing
 * and deleting news, saving notes) write the whole document back (writeData),
 * while the GET handlers and an update of an unknown user write nothing.
 * readData itself writes only when the file is missing or unreadable, and then
 * the empty document. Routing, the 500 responses for file errors and JSON text
 * are not part of this model.
 */
module Server {
  import opened Js
  import opened Entities

  const UserNotFound := "User not found"

  /** `users.findIndex(u => u.email === email)`, with None standing for -1. */
  function FindUserIndex(users: seq<UserRecord>, email: string): (r: Option<nat>)
    ensures r.Some? ==> r.value < |users| && HasEmail(users[r.value], email)
    ensures r.Some? ==> forall j | 0 <= j < r.value :: !HasEmail(users[j], email)
    ensures r.None? ==> forall j | 0 <= j < |users| :: !HasEmail(users[j], email)
  {
    if users == [] then None
    else if HasEmail(users[0], email) then Some(0)
    else match FindUserIndex(users[1..], email)
      case Some(k) => Some(k + 1)
      case None => None
  }

  /** `users.find(u => u.email === email)`, with None standing for undefined. */
  function FindUser(users: seq<UserRecord>, email: string): (r: Option<UserRecord>)
    ensures r.Some? <==> exists j | 0 <= j < |users| :: HasEmail(users[j], email)
    ensures r.Some? ==> r.value in users && HasEmail(r.value, email)
    ensures r.Some? ==> FindUserIndex(users, email).Some? && r.value == users[FindUserIndex(users, email).value]
  {
    match FindUserIndex(users, email)
    case Some(i) => Some(users[i])
    case None => None
  }

  /** No two users share an email: what registration's duplicate check is there to keep. */
  predicate UniqueEmails(users: seq<UserRecord>) {
    forall i, j | 0 <= i < j < |users| ::
      !("email" in users[i] && "email" in users[j] && users[i]["email"] == users[j]["email"])
  }

  /** Appending a user whose email no stored user has keeps emails unique. */
  lemma AppendNewEmailKeepsUnique(users: seq<UserRecord>, user: UserRecord)
    requires UniqueEmails(users)
    requires "email" in user && FindUser(users, user["email"]).None?
    ensures UniqueEmails(users + [user])
  {
    var all := users + [user];
    forall i, j | 0 <= i < j < |all|
      ensures !("email" in all[i] && "email" in all[j] && all[i]["email"] == all[j]["email"])
    {
      if j == |users| {
        assert !HasEmail(users[i], user["email"]);
      }
    }
  }

  /** Merging fields other than `email` into one user keeps emails unique. */
  lemma MergeWithoutEmailKeepsUnique(users: seq<UserRecord>, k: nat, fields: Record)
    requires UniqueEmails(users) && k < |users| && "email" !in fields
    ensures UniqueEmails(users[k := users[k] + fields])
  {
    var all := users[k := users[k] + fields];
    forall i | 0 <= i < |all|
      ensures ("email" in all[i] <==> "email" in users[i])
      ensures "email" in all[i] ==> all[i]["email"] == users[i]["email"]
    {
    }
  }

  /** After appending a user with a new email, looking that email up finds the appended user. */
  lemma {:induction false} FindUserAfterAppend(users: seq<UserRecord>, user: UserRecord, email: string)
    requires FindUser(users, email).None? && HasEmail(user, email)
    ensures FindUserIndex(users + [user], email) == Some(|users|)
    ensures FindUser(users + [user], email) == Some(user)
  {
    var all := users + [user];
    if users != [] {
      assert all[1..] == users[1..] + [user];
      FindUserAfterAppend(users[1..], user, email);
    }
  }

  /** Merging fields other than `email` into the user an email finds keeps that email finding it. */
  lemma {:induction false} FindUserAfterMerge(users: seq<UserRecord>, email: string, fields: Record)
    requires FindUserIndex(users, email).Some? && "email" !in fields
    ensures var i := FindUserIndex(users, email).value;
      FindUser(users[i := users[i] + fields], email) == Some(users[i] + fields)
  {
    var i := FindUserIndex(users, email).value;
    var all := users[i := users[i] + fields];
    if i > 0 {
      assert all[1..] == users[1..][i - 1 := users[i] + fields];
      FindUserAfterMerge(users[1..], email, fields);
    }
  }

  /** The test of `news.filter(n => n.id !== parseInt(req.params.id))`; a NaN id matches no item. */
  function KeepsNewsOtherThan(id: Option<int>): NewsItem -> bool {
    (item: NewsItem) => id.None? || item.id != id.value
  }

  /** The test `n => n.id !== id` for a numeric id. */
  function NewsHasOtherId(id: int): NewsItem -> bool {
    (item: NewsItem) => item.id != id
  }

  /** Deleting by the decimal text of an id removes exactly the items with that id, keeping the others in order. */
  lemma {:induction false} DeleteByDecimalId(news: seq<NewsItem>, id: nat)
    ensures Filter(news, KeepsNewsOtherThan(ParseInt(DecimalString(id)))) == Filter(news, NewsHasOtherId(id))
    ensures forall item | item in Filter(news, KeepsNewsOtherThan(ParseInt(DecimalString(id)))) :: item.id != id
  {
    ParseIntDecimalString(id);
    if news != [] {
      DeleteByDecimalId(news[1..], id);
    }
  }

  /** Deleting an id that no item has leaves the list as it was. */
  lemma DeleteUnknownIdKeepsNews(news: seq<NewsItem>, idParam: string)
    requires forall i | 0 <= i < |news| :: ParseInt(idParam) != Some(news[i].id)
    ensures Filter(news, KeepsNewsOtherThan(ParseInt(idParam))) == news
  {
    FilterKeepsAll(news, KeepsNewsOtherThan(ParseInt(idParam)));
  }

  /** The API process and the data.json file it owns. */
  class DataStore {
    /** The content of data.json: None while the file is missing or does not parse. */
    var dataFile: Option<Document>

    constructor(file: Option<Document>)
      ensures dataFile == file
    {
      dataFile := file;
    }

    /** The document readData returns in the current state. */
    ghost function Current(): Document
      reads this
    {
      dataFile.GetOr(EmptyDocument)
    }

    /** readData: the stored document; when there is none, the empty one, which is also written. */
    method ReadData() returns (data: Document)
      modifies this
      ensures data == old(Current())
      ensures dataFile == Some(data)
      ensures old(dataFile).Some? ==> dataFile == old(dataFile)
    {
      match dataFile
      case Some(d) =>
        data := d;
      case None =>
        data := EmptyDocument;
        dataFile := Some(data);
    }

    /** writeData: replaces the whole file. */
    method WriteData(data: Document)
      modifies this
      ensures dataFile == Some(data)
    {
      dataFile := Some(data);
    }

    /** GET /api/users: every user, in storage order. */
    method ListUsers() returns (users: seq<UserRecord>)
      modifies this
      ensures dataFile == Some(old(Current()))
      ensures users == old(Current()).users
    {
      var data := ReadData();
      users := data.users;
    }

    /** POST /api/users: appends the body as it is, without any uniqueness check, and echoes it. */
    method CreateUser(newUser: UserRecord) returns (created: UserRecord)
      modifies this
      ensures created == newUser
      ensures var d := old(Current()); dataFile == Some(d.(users := d.users + [newUser]))
    {
      var data := ReadData();
      data := data.(users := data.users + [newUser]);
      WriteData(data);
      created := newUser;
    }

    /**
     * PUT /api/users/:email: merges the body over the first user with that email
     * (`{ ...user, ...body }`). With no such user it answers 404 and writes nothing.
     */
    method UpdateUser(email: string, body: Record) returns (updated: Option<UserRecord>)
      modifies this
      ensures var d := old(Current()); var i := FindUserIndex(d.users, email);
        && (i.None? ==> updated.None? && dataFile == Some(d))
        && (i.Some? ==> updated == Some(d.users[i.value] + body)
                        && dataFile == Some(d.(users := d.users[i.value := d.users[i.value] + body])))
      ensures updated.Some? ==>
        var before := FindUser(old(Current()).users, email).value;
        && updated.value.Keys == before.Keys + body.Keys
        && (forall key | key in body :: updated.value[key] == body[key])
        && (forall key | key in before && key !in body :: updated.value[key] == before[key])
    {
      var data := ReadData();
      var userIndex := FindUserIndex(data.users, email);
      match userIndex
      case Some(i) =>
        data := data.(users := data.users[i := data.users[i] + body]);
        WriteData(data);
        updated := Some(data.users[i]);
      case None =>
        updated := None;
    }

    /** GET /api/users/:email: the first user with that email, or 404 (None). */
    method GetUser(email: string) returns (user: Option<UserRecord>)
      modifies this
      ensures dataFile == Some(old(Current()))
      ensures user == FindUser(old(Current()).users, email)
    {
      var data := ReadData();
      user := FindUser(data.users, email);
    }

    /** GET /api/news: every item, unsorted. */
    method ListNews() returns (news: seq<NewsItem>)
      modifies this
      ensures dataFile == Some(old(Current()))
      ensures news == old(Current()).news
    {
      var data := ReadData();
      news := data.news;
    }

    /** POST /api/news: appends the item and echoes it. */
    method CreateNews(item: NewsItem) returns (created: NewsItem)
      modifies this
      ensures created == item
      ensures var d := old(Current()); dataFile == Some(d.(news := d.news + [item]))
    {
      var data := ReadData();
      data := data.(news := data.news + [item]);
      WriteData(data);
      created := item;
    }

    /**
     * DELETE /api/news/:id: keeps the items whose id differs from `parseInt(idText)`
     * and always answers `{ success: true }`, also when nothing matched.
     */
    method DeleteNews(idText: string) returns (success: bool)
      modifies this
      ensures success
      ensures var d := old(Current()); dataFile == Some(d.(news := Filter(d.news, KeepsNewsOtherThan(ParseInt(idText)))))
    {
      var data := ReadData();
      data := data.(news := Filter(data.news, KeepsNewsOtherThan(ParseInt(idText))));
      WriteData(data);
      success := true;
    }

    /** GET /api/notes/:email: that email's list, or [] when it has none. */
    method GetNotes(email: string) returns (notes: seq<Note>)
      modifies this
      ensures dataFile == Some(old(Current()))
      ensures var d := old(Current()); notes == if email in d.notes then d.notes[email] else []
    {
      var data := ReadData();
      notes := if email in data.notes then data.notes[email] else [];
    }

    /** POST /api/notes/:email: replaces that email's whole list with the body and echoes it. */
    method SaveNotes(email: string, notes: seq<Note>) returns (saved: seq<Note>)
      modifies this
      ensures saved == notes
      ensures var d := old(Current()); dataFile == Some(d.(notes := d.notes[email := notes]))
    {
      var data := ReadData();
      ghost var read := data;
      if email !in data.notes {
        data := data.(notes := data.notes[email := []]);
      }
      data := data.(notes := data.notes[email := notes]);
      assert data.notes == read.notes[email := notes];
      WriteData(data);
      saved := data.notes[email];
    }
  }

  /** Saving a list for an email and then reading that email's notes gives the list back. */
  method SaveThenGetNotes(store: DataStore, email: string, notes: seq<Note>) returns (read: seq<Note>)
    modifies store
    ensures read == notes
    ensures forall other | other != email && other in old(store.Current()).notes ::
      other in store.Current().notes && store.Current().notes[other] == old(store.Current()).notes[other]
  {
    var _ := store.SaveNotes(email, notes);
    read := store.GetNotes(email);
  }

  /** Publishing an item and then deleting its id leaves no item with that id. */
  method CreateThenDeleteNews(store: DataStore, item: NewsItem) returns (news: seq<NewsItem>)
    requires item.id >= 0
    modifies store
    ensures forall n | n in news :: n.id != item.id
    ensures news == Filter(old(store.Current()).news, NewsHasOtherId(item.id))
  {
    var _ := store.CreateNews(item);
    var _ := store.DeleteNews(DecimalString(item.id));
    news := store.ListNews();
    DeleteByDecimalId(old(store.Current()).news + [item], item.id);
    FilterAppend(old(store.Current()).news, [item], NewsHasOtherId(item.id));
  }
}
