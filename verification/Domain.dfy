/** The routing entities (src/domain/model.rs) and what a request needs of them (src/router/mod.rs). */
module Domain {
  import opened Base

  datatype ModelStatus = Healthy | Degraded | Unhealthy | Disabled

  datatype ProviderKind = OpenAI | Custom | OpenAIResponses | Anthropic | Google

  datatype RoutingStrategy = Priority | RoundRobin | Weighted | Economy

  datatype PromptCachePolicy = Auto | Off

  datatype RouteCapabilities = RouteCapabilities(tools: bool, vision: bool, jsonMode: bool)

  /** One rung of a fallback chain: direct (a provider) or nested (another route). */
  datatype RouteEntry = RouteEntry(
    id: int,
    providerId: Option<int>,
    targetRouteId: Option<int>,
    weight: real,
    status: ModelStatus,
    capabilities: RouteCapabilities,
    pricePer1m: real,
    cooldownUntil: int)

  datatype Provider = Provider(id: int, profileId: string, shared: bool, kind: ProviderKind)

  /** A resolved target: the provider and entry to try next. */
  datatype Target = Target(
    provider: Provider,
    entry: RouteEntry,
    identity: Option<string>,
    promptCache: PromptCachePolicy)

  datatype RequestNeeds = RequestNeeds(tools: bool, vision: bool, jsonMode: bool) {
    predicate Satisfies(caps: RouteCapabilities) {
      && (!tools || caps.tools)
      && (!vision || caps.vision)
      && (!jsonMode || caps.jsonMode)
    }
  }

  /** Entries live traffic may use. */
  predicate InRotation(status: ModelStatus) {
    status.Healthy? || status.Degraded?
  }

  predicate Eligible(needs: RequestNeeds, e: RouteEntry) {
    InRotation(e.status) && needs.Satisfies(e.capabilities)
  }
}
