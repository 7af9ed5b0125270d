/** Shared vocabulary of the Talbot model: optional values, message authors,
    chat-log entries and the shape of a serverless-function reply. */
module Base {

  /** A value that may be absent (JavaScript `null` / `undefined`). */
  datatype Option<+T> = None | Some(value: T)

  /** Author of a chat-log entry. Entries that arrive at the server as JSON
      may carry any sender tag; the client itself only writes `user` and
      `assistant`. */
  datatype Sender = User | Assistant | OtherSender(tag: string)

  /** One entry of the client's message log (`uiManager.messages`). Only the
      author and the text matter to the logic modelled here. */
  datatype Message = Message(sender: Sender, content: string)

  predicate IsUser(m: Message) {
    m.sender == User
  }

  /** JavaScript truthiness of an optional string: present and non-empty. */
  predicate Truthy(o: Option<string>) {
    o.Some? && o.value != ""
  }

  /** `xs` keeps some of the elements of `ys`, in their original order. */
  predicate IsSubsequence<T(==)>(xs: seq<T>, ys: seq<T>)
    decreases |ys|
  {
    if |xs| == 0 then true
    else if |ys| == 0 then false
    else if xs[0] == ys[0] then IsSubsequence(xs[1..], ys[1..])
    else IsSubsequence(xs, ys[1..])
  }

  /** The `httpMethod` of a serverless-function event. `OtherMethod` stands
      for every verb except the three named ones: its `name` is never
      "GET", "POST" or "OPTIONS", which are always written with their own
      constructors. */
  datatype HttpMethod = OPTIONS | GET | POST | OtherMethod(name: string)

  /** No element occurs twice. */
  predicate NoDuplicates<T(==)>(s: seq<T>) {
    forall i, j :: 0 <= i < j < |s| ==> s[i] != s[j]
  }
}
