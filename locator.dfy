/** The Element Locator: `getNavElements`, three lookups made in a fixed order. */
module Locator {
  import opened Wrappers

  /** Which lookup failed; each value carries the message of the Error the locator returns. */
  datatype LookupError = HeaderNotFound | ContainerNotFound | SwitcherNotFound {

    function Message(): string {
      match this
      case HeaderNotFound => "#consoleNavHeader not found"
      case ContainerNotFound => "#awsc-navigation-container not found"
      case SwitcherNotFound => "switcher element not found"
    }

    /** Position of the lookup in the order the locator makes them. */
    function Rank(): nat {
      match this
      case HeaderNotFound => 0
      case ContainerNotFound => 1
      case SwitcherNotFound => 2
    }
  }

  /**
   * The part of the host page the locator reads: the element with id
   * `consoleNavHeader`, the `#awsc-navigation-container` element searched
   * inside a given header, and the account-switcher background element
   * searched inside a given container.
   */
  datatype Document<!H, !C, S> = Document(
    header: Option<H>,
    containerIn: H -> Option<C>,
    switcherIn: C -> Option<S>)

  datatype NavElements<H, C, S> = NavElements(consoleNavHeader: H, container: C, switcher: S)

  /** Whether the element that `e` names exists, each one searched inside the one before it. */
  predicate Found<H, C, S>(doc: Document<H, C, S>, e: LookupError)
  {
    match e
    case HeaderNotFound => doc.header.Some?
    case ContainerNotFound =>
      doc.header.Some? && doc.containerIn(doc.header.value).Some?
    case SwitcherNotFound =>
      && doc.header.Some?
      && doc.containerIn(doc.header.value).Some?
      && doc.switcherIn(doc.containerIn(doc.header.value).value).Some?
  }

  /**
   * Looks up the header, then the container inside it, then the switcher
   * inside that. Either all three are found and returned, or the error names
   * the first one missing: every earlier one was found and no later one was
   * searched.
   */
  function GetNavElements<H, C, S>(doc: Document<H, C, S>): (r: Result<NavElements<H, C, S>, LookupError>)
    ensures r.Success? <==> Found(doc, HeaderNotFound) && Found(doc, ContainerNotFound) && Found(doc, SwitcherNotFound)
    ensures r.Success? ==>
      && doc.header == Some(r.value.consoleNavHeader)
      && doc.containerIn(r.value.consoleNavHeader) == Some(r.value.container)
      && doc.switcherIn(r.value.container) == Some(r.value.switcher)
    ensures r.Failure? ==>
      && !Found(doc, r.error)
      && forall e: LookupError :: e.Rank() < r.error.Rank() ==> Found(doc, e)
  {
    match doc.header
    case None => Failure(HeaderNotFound)
    case Some(h) =>
      match doc.containerIn(h)
      case None => Failure(ContainerNotFound)
      case Some(c) =>
        match doc.switcherIn(c)
        case None => Failure(SwitcherNotFound)
        case Some(s) => Success(NavElements(h, c, s))
  }

  /**
   * The Error each failed lookup returns: its message names the element
   * that is missing, and distinct lookups give distinct messages.
   */
  lemma ReportsMissingElement<H, C, S>(doc: Document<H, C, S>)
    ensures var r := GetNavElements(doc);
      && (doc.header.None? ==> r.Failure? && r.error.Message() == "#consoleNavHeader not found")
      && (doc.header.Some? && doc.containerIn(doc.header.value).None? ==>
            r.Failure? && r.error.Message() == "#awsc-navigation-container not found")
      && (Found(doc, ContainerNotFound) && !Found(doc, SwitcherNotFound) ==>
            r.Failure? && r.error.Message() == "switcher element not found")
    ensures forall e1: LookupError, e2: LookupError :: e1.Message() == e2.Message() ==> e1 == e2
  {
    forall e1: LookupError, e2: LookupError | e1.Message() == e2.Message()
      ensures e1 == e2
    {
      assert e1.Message()[1] == e2.Message()[1];
      assert e1.Message()[0] == e2.Message()[0];
    }
  }
}
