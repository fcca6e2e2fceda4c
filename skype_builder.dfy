/** `SkypeBuilder`: the mutable configuration object that collects the
    subscription resources, the error handlers, an optional logger and an
    optional guest chat, and then decides which client to construct.

    The logger and the error handlers are opaque to the builder: they are
    the type parameters `Logger` and `Handler`, passed through untouched.
    Java's `null` is `None`; an `IllegalArgumentException` is an
    `InvalidArgument` error carrying the exception's message. */
module Skype {
  import opened Wrappers
  import Utf8
  import Credentials

  /** What the builder throws; `message` is the exception's message. */
  datatype Error = InvalidArgument(message: string)

  const InvalidChatId: Error := InvalidArgument("Invalid chat id")
  const NoResourcesSelected: Error := InvalidArgument("No resources selected")
  const NoChatSpecified: Error := InvalidArgument("No chat specified")

  /** The prefix every group-chat id starts with. */
  const ChatIdPrefix: string := "19:"

  /** The four resources `withAllResources` subscribes to. */
  const AllResources: set<string> := {
    "/v1/users/ME/conversations/ALL/properties",
    "/v1/users/ME/conversations/ALL/messages",
    "/v1/users/ME/contacts/ALL",
    "/v1/threads/ALL"
  }

  /** Java's `id.startsWith("19:")`. */
  predicate IsChatId(id: string) {
    |ChatIdPrefix| <= |id| && id[..|ChatIdPrefix|] == ChatIdPrefix
  }

  /** The arguments of the two client constructors the builder may call:
      `FullClient` logs in with a credential token, `GuestClient` joins one
      chat as a guest. The clients themselves are not modelled. */
  datatype Client<Logger, Handler> =
    | Full(username: string, hash: string, resources: set<string>,
           logger: Option<Logger>, errorHandlers: seq<Handler>)
    | Guest(username: string, chatId: string, resources: set<string>,
            logger: Option<Logger>, errorHandlers: seq<Handler>)

  class SkypeBuilder<Logger, Handler> {
    const username: string
    var resources: set<string>
    var errorHandlers: seq<Handler>
    var customLogger: Option<Logger>
    var chatId: Option<string>

    /** The builder's invariant: a chat id, once set, is well formed. */
    ghost predicate Valid()
      reads this
    {
      chatId.Some? ==> IsChatId(chatId.value)
    }

    /** A builder for `username` with nothing selected yet. */
    constructor (username: string)
      ensures Valid()
      ensures this.username == username
      ensures resources == {} && errorHandlers == [] && customLogger == None && chatId == None
    {
      this.username := username;
      resources := {};
      errorHandlers := [];
      customLogger := None;
      chatId := None;
    }

    /** Subscribes to every known resource. */
    method WithAllResources()
      modifies this
      ensures resources == old(resources) + AllResources
      ensures errorHandlers == old(errorHandlers) && customLogger == old(customLogger) && chatId == old(chatId)
    {
      resources := resources + AllResources;
    }

    /** Subscribes to one resource the library does not know about. */
    method WithResource(resource: string)
      modifies this
      ensures resources == old(resources) + {resource}
      ensures errorHandlers == old(errorHandlers) && customLogger == old(customLogger) && chatId == old(chatId)
    {
      resources := resources + {resource};
    }

    /** Uses `logger` instead of the default logger, replacing any earlier one. */
    method WithLogger(logger: Logger)
      modifies this
      ensures customLogger == Some(logger)
      ensures resources == old(resources) && errorHandlers == old(errorHandlers) && chatId == old(chatId)
    {
      customLogger := Some(logger);
    }

    /** Adds an error handler after those already added. */
    method WithExceptionHandler(handler: Handler)
      modifies this
      ensures errorHandlers == old(errorHandlers) + [handler]
      ensures resources == old(resources) && customLogger == old(customLogger) && chatId == old(chatId)
    {
      errorHandlers := errorHandlers + [handler];
    }

    /** Selects the chat to join as a guest. An id without the `19:` prefix
        is rejected on the spot and leaves the builder as it was; a good one
        replaces any earlier choice. */
    method WithChat(id: string) returns (r: Outcome<Error>)
      modifies this
      ensures r.Fail? <==> !IsChatId(id)
      ensures r.Fail? ==> r.error == InvalidChatId && chatId == old(chatId)
      ensures r.Pass? ==> chatId == Some(id)
      ensures old(Valid()) ==> Valid()
      ensures resources == old(resources) && errorHandlers == old(errorHandlers) && customLogger == old(customLogger)
    {
      if !IsChatId(id) {
        return Fail(InvalidChatId);
      }
      chatId := Some(id);
      r := Pass;
    }

    /** The client to construct for the credential token `hash`, if one is
        given: a full client whenever there is a token (a chosen chat is
        then ignored), otherwise a guest client for the chosen chat. No
        resources, or neither token nor chat, is an error. */
    function BuildWithHash(hash: Option<string>): (r: Result<Client<Logger, Handler>, Error>)
      reads this
      ensures r.Success? <==> resources != {} && (hash.Some? || chatId.Some?)
      ensures r.Failure? ==> r.error == if resources == {} then NoResourcesSelected else NoChatSpecified
      ensures r.Success? ==> r.value.Full? == hash.Some?
      ensures r.Success? ==> r.value.username == username && r.value.resources == resources
      ensures r.Success? ==> r.value.logger == customLogger && r.value.errorHandlers == errorHandlers
      ensures r.Success? && r.value.Full? ==> Some(r.value.hash) == hash
      ensures r.Success? && r.value.Guest? ==> Some(r.value.chatId) == chatId
      ensures Valid() && r.Success? && r.value.Guest? ==> IsChatId(r.value.chatId)
    {
      if resources == {} then Failure(NoResourcesSelected)
      else if hash.Some? then Success(Full(username, hash.value, resources, customLogger, errorHandlers))
      else if chatId.Some? then Success(Guest(username, chatId.value, resources, customLogger, errorHandlers))
      else Failure(NoChatSpecified)
    }

    /** The client to construct for `password`, if one is given: the token
        derived from the username and the password goes to `BuildWithHash`;
        without a password `BuildWithHash` gets no token either. */
    function BuildWithPassword(password: Option<string>, md5: Utf8.Bytes -> Credentials.Digest)
      : (r: Result<Client<Logger, Handler>, Error>)
      reads this
      ensures password.None? ==> r == BuildWithHash(None)
      ensures password.Some? ==> r == BuildWithHash(Some(Credentials.PasswordToHash(username, password.value, md5)))
      ensures password.Some? && resources != {} ==> r.Success? && r.value.Full? && |r.value.hash| == 24
    {
      if password.Some? then BuildWithHash(Some(Credentials.PasswordToHash(username, password.value, md5)))
      else BuildWithHash(None)
    }
  }

  /** With a token, the chosen chat makes no difference ("will have no
      effect if a password is specified"): two builders that differ at most
      in their chat build the same client. */
  lemma ChatIgnoredWithHash<L, H>(b1: SkypeBuilder<L, H>, b2: SkypeBuilder<L, H>, hash: string)
    requires b1.username == b2.username && b1.resources == b2.resources
    requires b1.customLogger == b2.customLogger && b1.errorHandlers == b2.errorHandlers
    ensures b1.BuildWithHash(Some(hash)) == b2.BuildWithHash(Some(hash))
  {
  }

  /** Subscribing to the same resource twice leaves one subscription. */
  method DuplicateResource<L, H>(username: string, resource: string) returns (subscribed: set<string>)
    ensures subscribed == {resource}
  {
    var b := new SkypeBuilder<L, H>(username);
    b.WithResource(resource);
    b.WithResource(resource);
    subscribed := b.resources;
  }

  /** Subscribing to all resources a second time changes nothing. */
  method AllResourcesTwice<L, H>(username: string) returns (once: set<string>, twice: set<string>)
    ensures once == twice == AllResources
  {
    var b := new SkypeBuilder<L, H>(username);
    b.WithAllResources();
    once := b.resources;
    b.WithAllResources();
    twice := b.resources;
  }

  /** Error handlers are kept in the order they were added. */
  method HandlerOrder<L, H>(username: string, first: H, second: H) returns (handlers: seq<H>)
    ensures handlers == [first, second]
  {
    var b := new SkypeBuilder<L, H>(username);
    b.WithExceptionHandler(first);
    b.WithExceptionHandler(second);
    handlers := b.errorHandlers;
  }

  /** "19:abc" is accepted; a later "abc" is rejected at once and the
      accepted chat stays selected. */
  method ChatValidation<L, H>(username: string) returns (accepted: Outcome<Error>, rejected: Outcome<Error>, chat: Option<string>)
    ensures accepted == Pass
    ensures rejected == Fail(InvalidChatId)
    ensures chat == Some("19:abc")
  {
    var b := new SkypeBuilder<L, H>(username);
    assert "19:abc"[..3] == ChatIdPrefix;
    assert !IsChatId("abc") by {
      assert "abc"[..3][0] != ChatIdPrefix[0];
    }
    accepted := b.WithChat("19:abc");
    rejected := b.WithChat("abc");
    chat := b.chatId;
  }

  /** The three outcomes of building with resources selected: no token and
      no chat fails, a chat alone gives a guest client, and a token gives a
      full client even with a chat selected. Without resources even a token
      fails. */
  method Dispatch<L, H>(username: string, hash: string)
    returns (empty: Result<Client<L, H>, Error>, noChat: Result<Client<L, H>, Error>,
             guest: Result<Client<L, H>, Error>, full: Result<Client<L, H>, Error>)
    ensures empty == Failure(NoResourcesSelected)
    ensures noChat == Failure(NoChatSpecified)
    ensures guest == Success(Guest(username, "19:abc", AllResources, None, []))
    ensures full == Success(Full(username, hash, AllResources, None, []))
  {
    var b := new SkypeBuilder<L, H>(username);
    empty := b.BuildWithHash(Some(hash));
    b.WithAllResources();
    noChat := b.BuildWithHash(None);
    assert "19:abc"[..3] == ChatIdPrefix;
    var _ := b.WithChat("19:abc");
    assert b.chatId == Some("19:abc");
    guest := b.BuildWithHash(None);
    assert guest.Success? && guest.value.Guest?;
    assert guest.value.chatId == "19:abc";
    assert guest.value.username == username;
    assert guest.value.resources == AllResources;
    assert guest.value.logger == None;
    assert guest.value.errorHandlers == [];
    full := b.BuildWithHash(Some(hash));
  }
}
