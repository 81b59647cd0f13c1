/**
  The message shapes the cache-delta walk distinguishes (distil/cachedelta.py,
  `_rewrite_tool_texts`), generic in what stands in for a text.  `rest` is everything else in the
  dictionary, serialised.
*/
module Conversation {
  import opened Wrappers

  datatype Role = ToolRole | UserRole | OtherRole

  /** An element of a list of parts: a text part, or anything else. */
  datatype Part<T> = TextPart(text: T, rest: string) | OtherPart(rest: string)

  /** A content block: a tool result with string content, with a list of parts, or anything else
      (which includes a tool result with other content). */
  datatype Block<T> =
    | TextResult(id: Option<string>, text: T, rest: string)
    | PartsResult(id: Option<string>, parts: seq<Part<T>>, rest: string)
    | OtherBlock(rest: string)

  datatype Msg<T> =
    | TextMsg(role: Role, callId: Option<string>, text: T, rest: string)
    | ToolListMsg(callId: Option<string>, parts: seq<Part<T>>, rest: string)
    | BlockListMsg(blocks: seq<Block<T>>, rest: string)
    | OpaqueMsg(rest: string)

  type Conv = seq<Msg<string>>

  /** A tool or user text the walk may rewrite, with the tool id it answers. */
  datatype Site = Site(text: string, id: Option<string>)

  predicate Exempt(id: Option<string>, keep: set<string>) {
    id.Some? && id.value in keep
  }

  function PartSites(parts: seq<Part<string>>, id: Option<string>, n: nat): seq<Site>
    requires n <= |parts|
  {
    if n == 0 then []
    else
      var sites := PartSites(parts, id, n - 1);
      if parts[n - 1].TextPart? then sites + [Site(parts[n - 1].text, id)] else sites
  }

  function BlockSites(blocks: seq<Block<string>>, n: nat): seq<Site>
    requires n <= |blocks|
  {
    if n == 0 then []
    else
      var sites := BlockSites(blocks, n - 1);
      match blocks[n - 1]
      case TextResult(id, text, _) => sites + [Site(text, id)]
      case PartsResult(id, parts, _) => sites + PartSites(parts, id, |parts|)
      case OtherBlock(_) => sites
  }

  /** The rewritable texts of a message, in the order the walk visits them. */
  function Sites(m: Msg<string>): seq<Site> {
    match m
    case TextMsg(role, id, text, _) => if role == OtherRole then [] else [Site(text, id)]
    case ToolListMsg(id, parts, _) => PartSites(parts, id, |parts|)
    case BlockListMsg(blocks, _) => BlockSites(blocks, |blocks|)
    case OpaqueMsg(_) => []
  }

  lemma {:induction false} PartSiteAt(parts: seq<Part<string>>, id: Option<string>, n: nat, s: Site)
    requires n <= |parts|
    ensures s in PartSites(parts, id, n) <==>
            exists i :: 0 <= i < n && parts[i].TextPart? && s == Site(parts[i].text, id)
  {
    if n == 0 {
    } else {
      PartSiteAt(parts, id, n - 1, s);
    }
  }

  predicate SiteOfBlock(b: Block<string>, s: Site) {
    match b
    case TextResult(id, text, _) => s == Site(text, id)
    case PartsResult(id, parts, _) => exists i :: 0 <= i < |parts| && parts[i].TextPart? && s == Site(parts[i].text, id)
    case OtherBlock(_) => false
  }

  lemma {:induction false} BlockSiteAt(blocks: seq<Block<string>>, n: nat, s: Site)
    requires n <= |blocks|
    ensures s in BlockSites(blocks, n) <==> exists i :: 0 <= i < n && SiteOfBlock(blocks[i], s)
  {
    if n == 0 {
    } else {
      BlockSiteAt(blocks, n - 1, s);
      if blocks[n - 1].PartsResult? {
        PartSiteAt(blocks[n - 1].parts, blocks[n - 1].id, |blocks[n - 1].parts|, s);
      }
    }
  }

  /** The sites of a list of parts, or of blocks, are those of its beginning and then those of the rest. */
  lemma {:induction false} PartSitesOfSum(a: seq<Part<string>>, b: seq<Part<string>>, id: Option<string>, n: nat)
    requires n <= |b|
    ensures PartSites(a + b, id, |a| + n) == PartSites(a, id, |a|) + PartSites(b, id, n)
  {
    if n == 0 {
      PartSitesOfPrefix(a, a + b, id, |a|);
    } else {
      PartSitesOfSum(a, b, id, n - 1);
      assert (a + b)[|a| + n - 1] == b[n - 1];
    }
  }

  lemma {:induction false} PartSitesOfPrefix(a: seq<Part<string>>, b: seq<Part<string>>, id: Option<string>, n: nat)
    requires n <= |a| && a <= b
    ensures PartSites(a, id, n) == PartSites(b, id, n)
  {
    if n == 0 {
    } else {
      PartSitesOfPrefix(a, b, id, n - 1);
    }
  }

  lemma {:induction false} BlockSitesOfSum(a: seq<Block<string>>, b: seq<Block<string>>, n: nat)
    requires n <= |b|
    ensures BlockSites(a + b, |a| + n) == BlockSites(a, |a|) + BlockSites(b, n)
  {
    if n == 0 {
      BlockSitesOfPrefix(a, a + b, |a|);
    } else {
      BlockSitesOfSum(a, b, n - 1);
      assert (a + b)[|a| + n - 1] == b[n - 1];
    }
  }

  lemma {:induction false} BlockSitesOfPrefix(a: seq<Block<string>>, b: seq<Block<string>>, n: nat)
    requires n <= |a| && a <= b
    ensures BlockSites(a, n) == BlockSites(b, n)
  {
    if n == 0 {
    } else {
      BlockSitesOfPrefix(a, b, n - 1);
    }
  }

  /** What may be rewritten at all: the text of a tool or user message, the text parts of a tool message,
      and the texts and text parts of tool results in a list of blocks. */
  lemma SiteIff(m: Msg<string>, s: Site)
    ensures s in Sites(m) <==>
      match m
      case TextMsg(role, id, text, _) => (role == ToolRole || role == UserRole) && s == Site(text, id)
      case ToolListMsg(id, parts, _) =>
        exists i :: 0 <= i < |parts| && parts[i].TextPart? && s == Site(parts[i].text, id)
      case BlockListMsg(blocks, _) => exists i :: 0 <= i < |blocks| && SiteOfBlock(blocks[i], s)
      case OpaqueMsg(_) => false
  {
    match m
    case TextMsg(_, _, _, _) =>
    case ToolListMsg(id, parts, _) => PartSiteAt(parts, id, |parts|, s);
    case BlockListMsg(blocks, _) => BlockSiteAt(blocks, |blocks|, s);
    case OpaqueMsg(_) =>
  }
}
