/**
 * `generateResponse(query)`: load the documents, retrieve the best sentence
 * for the query, append it to the query as a fact and send the result to the
 * chat model as one human message.
 */
module Prompt {
  import opened Wrappers
  import opened Scoring
  import opened Retriever

  /** The text placed between the query and the retrieved sentence. */
  const FactPrefix := " Considering the following fact: "

  /** The reply when the loader returns an empty list. */
  const EmptyCorpusMessage := "Failed to load documents or documents are empty."

  /** `retrievedData ? `${query} Considering the following fact: ${retrievedData}` : query` */
  function Augment(query: string, retrievedData: string): string {
    if retrievedData != "" then query + FactPrefix + retrievedData else query
  }

  /** The fact carried by a prompt built for `query`, if the prompt carries one. */
  function FactOf(query: string, augmented: string): Option<string> {
    var head := query + FactPrefix;
    if |head| < |augmented| && augmented[..|head|] == head then Some(augmented[|head|..]) else None
  }

  /**
   * The prompt always starts with the query; the fact can be read back from
   * it; and a prompt without a fact is the bare query.
   */
  lemma AugmentRoundTrip(query: string, retrievedData: string)
    ensures Augment(query, retrievedData)[..|query|] == query
    ensures retrievedData == "" ==> Augment(query, retrievedData) == query
    ensures FactOf(query, Augment(query, retrievedData)) == if retrievedData == "" then None else Some(retrievedData)
  {
    var p := Augment(query, retrievedData);
    var head := query + FactPrefix;
    if retrievedData != "" {
      assert p == head + retrievedData;
      assert p[..|head|] == head;
      assert p[|head|..] == retrievedData;
      assert p[..|query|] == head[..|query|];
    } else {
      assert p[..|query|] == query;
    }
  }

  /**
   * The retriever never returns an empty string, so the fact is always
   * appended, even when it is the fallback sentence.
   */
  lemma AugmentationAlwaysFires(a: Analyzer, query: string, docs: seq<Option<Document>>)
    ensures Augment(query, Retrieve(a, query, docs)) == query + FactPrefix + Retrieve(a, query, docs)
  {
    RetrieveIsNoMatchOrSentence(a, query, docs);
  }

  /** Without any overlap the prompt carries the fallback sentence as its fact. */
  lemma NoOverlapPrompt(a: Analyzer, query: string, docs: seq<Option<Document>>)
    requires forall j :: 0 <= j < |Candidates(docs)| ==> LineScore(a, Candidates(docs)[j], Tokens(a, query)) == 0
    ensures Augment(query, Retrieve(a, query, docs)) == query + FactPrefix + NoMatch
  {
    RetrieveNoOverlap(a, query, docs);
  }

  /** One entry of the message list handed to the chat model. */
  datatype ChatMessage = ChatMessage(role: string, content: string)

  /** What `generateResponse` resolves to: a fixed message, or the model's response. */
  datatype Reply<R> = Message(text: string) | ModelReply(response: R)

  /**
   * `generateResponse` once the documents are loaded: `documents` is what the
   * loader returned and `invoke` stands for the chat model.
   */
  method GenerateResponse<R>(a: Analyzer, query: string, documents: seq<Option<Document>>,
                             invoke: seq<ChatMessage> -> R)
    returns (reply: Reply<R>)
    ensures |documents| == 0 ==> reply == Message(EmptyCorpusMessage)
    ensures |documents| > 0 ==>
      reply == ModelReply(invoke([ChatMessage("human", query + FactPrefix + Retrieve(a, query, documents))]))
  {
    if |documents| == 0 {
      return Message(EmptyCorpusMessage);
    }
    var retrievedData := RetrieveData(a, query, documents);
    var augmentedQuery := Augment(query, retrievedData);
    AugmentationAlwaysFires(a, query, documents);
    var responses := invoke([ChatMessage("human", augmentedQuery)]);
    reply := ModelReply(responses);
  }

  /**
   * A non-empty list whose entries are all skipped still reaches the model,
   * with the fallback sentence as the fact.
   */
  lemma AllSkippedPrompt(a: Analyzer, query: string, docs: seq<Option<Document>>)
    requires forall i :: 0 <= i < |docs| ==> Skipped(docs[i])
    ensures Augment(query, Retrieve(a, query, docs)) == query + FactPrefix + NoMatch
  {
    GatherOfEmptyLists(docs, DocSentences);
    RetrieveNoOverlap(a, query, docs);
  }
}
