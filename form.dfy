/** The property lookup of `parseForm` in src/utils.ts: a key's first character chooses how
    the form entry stored under the rest of the key is typed. */
module Form {
  import opened Values

  /** An uploaded file, kept abstract. */
  datatype File = File(id: nat)

  /** One entry of a FormData: a text value or an uploaded file. */
  datatype Entry = Text(s: string) | Upload(file: File)

  /** The form's entries in document order, as (name, value) pairs. */
  type FormData = seq<(string, Entry)>

  /** What a lookup returns: `undefined`, a number, a string, a boolean or a File. */
  datatype Field =
    | Undefined
    | Number(n: int)
    | Str(s: string)
    | Bool(b: bool)
    | Attachment(file: File)

  /** `formData.get(name)`: the value of the first entry with that name, or null. */
  function Lookup(data: FormData, name: string): (r: Option<Entry>)
    ensures r.None? <==> forall i :: 0 <= i < |data| ==> data[i].0 != name
    ensures r.Some? ==> exists i :: 0 <= i < |data| && data[i] == (name, r.value) &&
                                   forall j :: 0 <= j < i ==> data[j].0 != name
  {
    if |data| == 0 then None
    else if data[0].0 == name then Some(data[0].1)
    else
      var r := Lookup(data[1..], name);
      assert forall i :: 1 <= i < |data| ==> data[i] == data[1..][i - 1];
      r
  }

  /** The identifier of a key: its first character, absent for the empty key. */
  function Identifier(key: string): (id: Option<char>)
    ensures id.Some? <==> |key| > 0
    ensures |key| > 0 ==> id == Some(key[0])
  {
    if |key| == 0 then None else Some(key[0])
  }

  /** The field name of a key, `key.substring(1)`: everything after the identifier. */
  function Name(key: string): (name: string)
    ensures |key| > 0 ==> [key[0]] + name == key
    ensures |key| == 0 ==> name == ""
  {
    if |key| == 0 then "" else key[1..]
  }

  /** The entry a key refers to. */
  function EntryOf(data: FormData, key: string): Option<Entry>
  {
    Lookup(data, Name(key))
  }

  /** The `get` handler of the proxy `parseForm` returns. `num` stands for `parseFloat`. */
  function Get(data: FormData, key: string, num: string -> int): (r: Field)
    // a missing field, or an identifier outside ':', '$', '?', '#', yields undefined
    ensures EntryOf(data, key).None? ==> r.Undefined?
    ensures Identifier(key) !in {Some(':'), Some('$'), Some('?'), Some('#')} ==> r.Undefined?
    // files only come out of '#', and '#' yields nothing else
    ensures r.Attachment? <==> Identifier(key) == Some('#') && EntryOf(data, key).Some? && EntryOf(data, key).value.Upload?
    ensures r.Attachment? ==> EntryOf(data, key) == Some(Upload(r.file))
    ensures Identifier(key) == Some('#') ==> r.Undefined? || r.Attachment?
    // '$' returns the text unchanged
    ensures r.Str? <==> Identifier(key) == Some('$') && EntryOf(data, key).Some? && EntryOf(data, key).value.Text?
    ensures r.Str? ==> EntryOf(data, key) == Some(Text(r.s))
    // '?' is true exactly for the text "on"
    ensures r.Bool? <==> Identifier(key) == Some('?') && EntryOf(data, key).Some? && EntryOf(data, key).value.Text?
    ensures r.Bool? ==> (r.b <==> EntryOf(data, key) == Some(Text("on")))
    // ':' parses a non-empty text; the empty text yields undefined
    ensures r.Number? <==> (Identifier(key) == Some(':') && EntryOf(data, key).Some? &&
                            EntryOf(data, key).value.Text? && EntryOf(data, key).value.s != "")
    ensures r.Number? ==> r.n == num(EntryOf(data, key).value.s)
  {
    var identifier := Identifier(key);
    match EntryOf(data, key)
    case None => Undefined
    case Some(Upload(file)) => if identifier == Some('#') then Attachment(file) else Undefined
    case Some(Text(s)) =>
      if identifier == Some(':') then (if s != "" then Number(num(s)) else Undefined)
      else if identifier == Some('$') then Str(s)
      else if identifier == Some('?') then Bool(s == "on")
      else Undefined
  }
}
