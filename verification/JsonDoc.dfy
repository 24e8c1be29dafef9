/** A JSON document as it is read: member order and repeated names are kept, a number is its text. */
module JsonDoc {
  import opened Wrappers

  datatype Doc =
    | Null
    | Bool(value: bool)
    | Number(text: string)
    | String(chars: string)
    | Array(items: seq<Doc>)
    | Object(members: seq<Member>)

  datatype Member = Member(name: string, value: Doc)

  /** The value a decoded object has for a name: the last member of that name. */
  function Lookup(members: seq<Member>, name: string): Option<Doc> {
    if members == [] then None
    else
      var last := members[|members| - 1];
      if last.name == name then Some(last.value) else Lookup(members[..|members| - 1], name)
  }

  predicate HasName(members: seq<Member>, name: string) {
    exists i :: 0 <= i < |members| && members[i].name == name
  }

  predicate DistinctNames(members: seq<Member>) {
    forall i, j :: 0 <= i < j < |members| ==> members[i].name != members[j].name
  }

  /** No object at any depth repeats a member name. */
  predicate NoDuplicates(d: Doc) {
    match d
    case Array(items) => forall i :: 0 <= i < |items| ==> NoDuplicates(items[i])
    case Object(members) => DistinctNames(members) && forall i :: 0 <= i < |members| ==> NoDuplicates(members[i].value)
    case _ => true
  }

  /** No value lies more than limit levels below d. */
  predicate WithinDepth(d: Doc, limit: int) {
    limit >= 0 &&
    match d
    case Array(items) => forall i :: 0 <= i < |items| ==> WithinDepth(items[i], limit - 1)
    case Object(members) => forall i :: 0 <= i < |members| ==> WithinDepth(members[i].value, limit - 1)
    case _ => true
  }

  /** The object has exactly the given names. */
  predicate ExactNames(members: seq<Member>, names: seq<string>) {
    && (forall k :: k in names ==> Lookup(members, k).Some?)
    && (forall i :: 0 <= i < |members| ==> members[i].name in names)
  }

  lemma {:induction false} LookupPresent(members: seq<Member>, name: string)
    ensures Lookup(members, name).Some? <==> HasName(members, name)
    ensures Lookup(members, name).Some? ==> exists i :: 0 <= i < |members| && members[i] == Member(name, Lookup(members, name).value)
  {
    if members != [] {
      var n := |members| - 1;
      LookupPresent(members[..n], name);
      if members[n].name != name && HasName(members, name) {
        var i :| 0 <= i < |members| && members[i].name == name;
        assert members[..n][i].name == name;
      }
      if members[n].name == name {
        assert members[n] == Member(name, members[n].value);
      } else if Lookup(members[..n], name).Some? {
        var i :| 0 <= i < n && members[..n][i] == Member(name, Lookup(members[..n], name).value);
        assert members[i] == Member(name, Lookup(members, name).value);
      }
    }
  }
}
