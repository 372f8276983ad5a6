/** The `Note` record: its fields, the defaults the store fills in, and its string form. */
module Models {
  import PyStr
  import opened Uuids

  /** The longest `username` the schema admits. */
  const UsernameMaxLength: nat := 100

  /** A point in time as a `datetime` holds it; only the fields the string form prints matter here. */
  datatype DateTime = DateTime(year: nat, month: nat, day: nat, hour: nat, minute: nat, second: nat, microsecond: nat)

  /** A stored note. `id` and `modificationCode` are generated version-4 UUIDs, `createdAt`
      is set once when the note is first saved, and `isPublic` defaults to false. */
  datatype Note = Note(
    id: Uuid,
    content: string,
    username: string,
    createdAt: DateTime,
    modificationCode: Uuid,
    isPublic: bool)

  /** `t.strftime('%Y-%m-%d %H:%M')`: each field zero-padded, the year to four digits and the
      rest to two. */
  function FormatMinute(t: DateTime): string {
    PyStr.Join([PyStr.ZeroPad(t.year, 4), "-", PyStr.ZeroPad(t.month, 2), "-", PyStr.ZeroPad(t.day, 2), " ",
                PyStr.ZeroPad(t.hour, 2), ":", PyStr.ZeroPad(t.minute, 2)])
  }

  /** The word `__str__` opens with. */
  function Status(isPublic: bool): string {
    if isPublic then "Public" else "Private"
  }

  /** `str(note)`: "<Public|Private> Note (<id>) by <username> created at <timestamp>". */
  function NoteStr(n: Note): (r: string)
    ensures |r| >= 7
    ensures r[..6] == "Public" <==> n.isPublic
    ensures r[..7] == "Private" <==> !n.isPublic
    ensures var k := |Status(n.isPublic)| + 7;
            |r| >= k + 36 && r[k - 7..k] == " Note (" && r[k..k + 36] == Format(n.id)
  {
    var id := Format(n.id);
    var tail := Byline(n);
    Shape(n.isPublic, id, tail);
    assert |id| == 36;
    Status(n.isPublic) + (" Note (" + (id + tail))
  }

  /** What follows the id in `str(note)`. */
  function Byline(n: Note): string {
    PyStr.Join([") by ", n.username, " created at ", FormatMinute(n.createdAt)])
  }

  /** The layout of `str(note)` for any id text and any tail. */
  lemma Shape(isPublic: bool, id: string, tail: string)
    ensures var r := Status(isPublic) + (" Note (" + (id + tail));
            var k := |Status(isPublic)| + 7;
            && |r| >= 7
            && (r[..6] == "Public" <==> isPublic) && (r[..7] == "Private" <==> !isPublic)
            && |r| >= k + |id| && r[k - 7..k] == " Note (" && r[k..k + |id|] == id
  {
    var r := Status(isPublic) + (" Note (" + (id + tail));
    assert r[..6][1] == r[1] && r[..7][1] == r[1];
    assert r[1] == if isPublic then 'u' else 'r';
    var k := |Status(isPublic)| + 7;
    assert r[k..k + |id|] == id;
  }

  /** The string form tells notes with different ids, or different visibility, apart. */
  lemma NoteStrIdentifiesNote(a: Note, b: Note)
    requires NoteStr(a) == NoteStr(b)
    ensures a.isPublic == b.isPublic
    ensures a.id == b.id
  {
    FormatInjective(a.id, b.id);
  }
}
