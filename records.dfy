/**
 * The database rows the services and endpoints read and write
 * (the models under backend/app/models), held in memory: a research session owns its
 * sources, its messages and at most one infographic, as the ORM
 * relationships load them. Row ids are given by the caller; timestamps are
 * integers.
 */
module Records {
  import opened Wrappers
  import Infographic

  datatype SourceRow = SourceRow(
    id: int,
    title: string,
    url: string,
    snippet: Option<string>,
    confidence: Option<real>,
    fetchedAt: Option<int>)

  datatype MessageRow = MessageRow(role: string, content: string)

  datatype InfographicRow = InfographicRow(imageUrl: string, layoutMeta: Infographic.LayoutMeta)

  /** Python truthiness of an optional string: present and non-empty. */
  predicate Truthy(s: Option<string>) {
    s.Some? && s.value != []
  }

  /** `a or b` for optional strings. */
  function OrElse(a: Option<string>, b: Option<string>): (r: Option<string>)
    ensures Truthy(a) ==> r == a
    ensures !Truthy(a) ==> r == b
  {
    if Truthy(a) then a else b
  }

  /** A ResearchSession row with its relationships loaded. */
  class ResearchSession {
    const id: int
    const userId: int
    const prompt: string
    var status: string
    var sources: seq<SourceRow>
    var messages: seq<MessageRow>
    var infographic: Option<InfographicRow>

    /** A new session: status "created", nothing attached. */
    constructor (id: int, userId: int, prompt: string)
      ensures this.id == id && this.userId == userId && this.prompt == prompt
      ensures status == "created" && sources == [] && messages == [] && infographic.None?
    {
      this.id := id;
      this.userId := userId;
      this.prompt := prompt;
      status := "created";
      sources := [];
      messages := [];
      infographic := None;
    }
  }
}
