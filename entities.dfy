/**
 * The values that travel between the pages and the JSON store: user records,
 * notes, news items and the root document kept in data.json.
 */
module Entities {

  /**
   * A JSON object whose fields are strings. Users are stored, merged and sent as
   * such objects (`email`, `firstName`, `lastName`, `dateOfBirth`, `password`),
   * and the pages keep their form data and their error messages in them.
   */
  type Record = map<string, string>

  type UserRecord = Record

  /**
   * Reading `r[key]` where only its truthiness or its text matters: a missing key
   * reads as "", which every check in the application treats like `undefined`.
   */
  function Field(r: Record, key: string): string {
    if key in r then r[key] else ""
  }

  /** `String(r[key])`, as a template literal or a URL segment spells it: a missing key gives "undefined". */
  function AsText(r: Record, key: string): string {
    if key in r then r[key] else "undefined"
  }

  /** `u.email === email`. */
  predicate HasEmail(u: UserRecord, email: string) {
    "email" in u && u["email"] == email
  }

  /** A personal note: `id` is the millisecond clock reading and `createdAt` the ISO text of the moment it was added. */
  datatype Note = Note(id: int, title: string, body: string, category: string, createdAt: string)

  /** A published news item; `authorName` is a copy of the author's names at publication. */
  datatype NewsItem = NewsItem(
    id: int,
    title: string,
    content: string,
    authorEmail: string,
    authorName: string,
    publishDate: int)

  /** The whole content of data.json. */
  datatype Document = Document(users: seq<UserRecord>, news: seq<NewsItem>, notes: map<string, seq<Note>>)

  /** The document written when data.json is missing or cannot be parsed. */
  const EmptyDocument := Document([], [], map[])
}
