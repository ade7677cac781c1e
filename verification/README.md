# Verified model of the B2B federation gateway

The gateway logs users in over SAML and OIDC, keeps a SCIM directory of users and groups, and lets a request
through to a backend only when an attribute-based policy allows it. This project models the parts of it whose
correctness is hardest to see, in Dafny, and proves what they promise. `dafny verify dfyconfig.toml` checks everything.

Four connected cores:

1. **SAML documents.** A flat token array with two index tables stands for a tree. `Document` and `Refinement` say
   what the tables and searches mean in terms of the tokens; `QName` and `Escape` are the byte-level scanners, with a
   reader of character references that knows what they stand for;
   `RawText` derives the walk's conditions from well-formed tag text; `Canon` is exclusive canonicalization as a
   function of trees and `Canonicalizer` the depth-limited walk that appends to a buffer. `Unambiguous`, `Context`,
   `Output` and `RoundTrip` hold the main results: a plain XML reader gets the tree's meaning back from canonical bytes,
   these depend on context through free prefixes only, each element declares what its output ancestors have not, and
   what is signed verifies wherever it is put. `Signature` and `Acceptance` say outright which documents verify and
   which claims are accepted. `Response`, `Reader`, `Claims` and `Legible` are about the claims read from a verified
   assertion: what acceptance means, and that signed bytes determine them. `Covered` says exactly when all of them lie
   inside signed content; `Coverage`, `Instances` and `Examples` give the documents for which they do not.
2. **SCIM filters.** `FilterLexer` and `FilterParser` are the tokenizer and the recursive-descent parser with its
   mutable position and depth. `FilterGrammar` gives the grammar independently of the parser and `FilterRoundTrip`
   the printer; the parser accepts exactly the grammar's sentences and undoes printing, in whatever letter case the
   keywords are written (`FilterCase`).
3. **Login protocol.** `Timestamp` is RFC3339Nano text and its order, `SessionStore` the tables, and `Protocol` a
   state machine over every interleaving of login, callback and ACS handlers, one SQL statement per step. `Provenance`
   reads off the actions of a run whose each session is, and `Logins` says which requests are pending and when a login
   ends in a session.
4. **Authorization and directory.** `Abac` and `Gate` are policy evaluation and the enforcement middleware; `Groups`,
   `GroupPatch` and `GroupRuns` the membership tables and the map of sets they refine; `Paging` the user listing.

Conventions. Loops and state-changing methods of the source are methods and classes here, each proved equal to a
specification function; the lemmas are about those functions. Ghost arguments (`f`, `n`) carry the tree that the
tokens stand for. Strings are sequences of characters. `{:induction false}` marks proofs that are written out.

Where the code and its documentation differ the model follows the code, gives an input that shows it and the exact
condition under which both agree:

- Recipient and Destination are documented as required to match and are compared only when present
  (internal/saml/response.go:58, internal/saml/response.go:95): `Response.EndpointNotNeeded`,
  `Examples.EndpointExample`.
- All claims are documented as lying inside the signed subtree (internal/saml/response.go:11-13,
  internal/saml/xmldsig.go:67-69). The searches for the Assertion and for attribute statements also look inside the
  signature that the digest leaves out. Every claim is signed if and only if the Assertion's own signature holds no
  attribute statement or the Response's signature holds no Assertion: `Covered.ClaimsCovered`. Documents where it fails
  are `Coverage.UnsignedAssertion` and `Examples.UnsignedExample`, where no claim is signed, and
  `Instances.UncoveredClaim` and `Examples.UncoveredExample`, where one attribute is not.
- A remove of `members[...]` is meant to remove the member named and empties the group or ignores the filter
  (internal/scim/patch.go:160-165): `GroupPatch.FilteredRemoveClears`, `GroupPatch.FilteredRemoveOfValues`,
  `GroupPatch.RemoveOneRemovesBoth`.
- A condition with several groups is decided by the first (internal/abac/evaluator.go:62-78): `Abac.OnlyFirstGroups`,
  `Abac.SecondGroupIgnored`.
- A delete for the wrong tenant still drops membership rows (internal/store/groups.go:171-185):
  `GroupRuns.FailedCalls`, `GroupRuns.ForeignDelete`.
- A used assertion is remembered up to the second of its expiry, by text, while it is accepted up to the skew after.
  A second use passes, outside the recorded second, if and only if the recorded time is past:
  `Protocol.ReplayPasses`; `Protocol.PassesInSkew` and `Protocol.PassedTwice` are runs.

## Model

| member | source | states |
|---|---|---|
| Document.XmlDoc.Index | internal/saml/xmldoc.go:55-86 | one pass with an explicit stack leaves tables that cover the tree of every balanced token list: each start tag maps to its own end tag and to the scope of its open ancestors |
| Document.Declare | internal/saml/xmldoc.go:62-74 | the scope inside a tag is the scope around it overridden by the tag's declarations, the last one of a prefix winning |
| Document.NestedOrDisjoint | internal/saml/xmldoc.go:55-86 | any two indexed ranges are nested or disjoint |
| Document.XmlDoc.RootRange | internal/saml/xmldsig.go:113-122 | finds the first top-level element and its end, or reports that there is none |
| Document.XmlDoc.FindDirectChild | internal/saml/xmldsig.go:128-143 | returns the range of the first child of that name, and fails only when there is none |
| Document.XmlDoc.FindAllDescendants | internal/saml/xmldoc.go:124-142 | returns the ranges of exactly the matching descendants without matching ancestor below the start, in document order, and ends |
| Document.XmlDoc.ElementText | internal/saml/xmldoc.go:144-152 | is all character data below the element, in order |
| Document.AttrLookup | internal/saml/xmldoc.go:154-161 | is the first attribute of that local name, declarations included |
| Refinement.BalancedIsForest | internal/saml/xmldoc.go:55-86 | a token list with captured tags is balanced if and only if it is the token list of a tree |
| Refinement.InnermostWins | internal/saml/xmldoc.go:55-86 | the scope stored for a start tag binds a prefix as the innermost open ancestor that declares it does, and not at all if none does |
| Refinement.FirstChildIsFirst | internal/saml/xmldsig.go:128-143 | for every child of that name the search succeeds at or before it, and what it finds has that name and its own end tag, stated on the token list |
| Refinement.FoundAfter | internal/saml/xmldsig.go:128-143 | what the search finds is a child, never a deeper descendant |
| Refinement.OutermostExactly | internal/saml/xmldoc.go:124-142 | an index is reported if and only if a matching start tag is there and no matching ancestor encloses it |
| Refinement.OutermostInOrder | internal/saml/xmldoc.go:124-142 | reported ranges are disjoint and come in document order |
| Refinement.RootIsFirst | internal/saml/xmldsig.go:113-122 | the root found is the first start tag of the token list, with its own end tag; none is found if and only if there is no start tag |
| Refinement.TextIsData | internal/saml/xmldoc.go:144-152 | the text of a tree is the character data between its first and last token, in order |
| Refinement.FirstAttribute | internal/saml/xmldoc.go:154-161 | looking up an attribute gives the first of that local name, and nothing if and only if there is none |
| QName.ReadNames | internal/saml/canon.go:65-111 | on every text with a `<`, which captured start tags have, the byte scanner ends and returns the names its specification gives |
| QName.NamesRecovered | internal/saml/canon.go:65-111 | from every well-formed start tag, whatever its spacing, quotes and values, exactly the tag name and the attribute names in order |
| RawText.NamesAligned | internal/saml/canon.go:216-247 | at every index of the decoded attributes the scanned name is that of the same attribute, so the index is in bounds and aligned |
| RawText.RawTextsSuffice | internal/saml/canon.go:39-111 | a document whose start tags are well formed meets the conditions of the canonicalizer and the verifier |
| Escape.EscapeLoop | internal/saml/canon.go:303-343 | the buffer holds the escaped text, and a reader of the references gets the text back from it |
| Escape.UnescapeEscaped | internal/saml/canon.go:303-343 | for every text, a reader that replaces each reference by the character it stands for gives back the text that was escaped |
| Escape.ReferencesExactly | internal/saml/canon.go:303-343 | `&`, `<` and CR, in attributes also `"`, TAB and LF, and in text also `>`, are written as a reference to themselves; every other character is written as itself |
| Escape.EscapedInjective | internal/saml/canon.go:303-343 | equal escaped texts come from equal texts |
| Escape.EscapedFree | internal/saml/canon.go:303-343 | escaped text holds no delimiter of its position |
| Canonicalizer.WriteStartTag | internal/saml/canon.go:184-275 | the tag is written with the needed declarations sorted by prefix and then the attributes sorted by namespace and local name, and the output scope is extended by those declarations |
| Canonicalizer.Renderer.Render | internal/saml/canon.go:167-301 | appends exactly what the walk of the element gives, or marks the document too deep |
| Canonicalizer.Renderer.RenderChildren | internal/saml/canon.go:276-297 | the loop over tokens appends what the children give, in order, and skips excluded elements |
| Canonicalizer.LimitedRefines | internal/saml/canon.go:150-174 | the limited walk fails if and only if some element outside the excluded ones lies more than 256 levels below the start, and otherwise equals the unlimited canonical text |
| Canonicalizer.Canonicalize | internal/saml/canon.go:154-161 | the bytes of an element without its excluded parts, or an error |
| Canonicalizer.CutOut | internal/saml/canon.go:276-297 | excluding the element at one index leaves the document as it was with that element gone, wherever it is |
| Canon.CanonicalPrints | internal/saml/canon.go:167-301 | canonical text is a printing of the tree's meaning: names, URIs of used prefixes, sorted attributes, merged text |
| Unambiguous.PrintUnambiguous | internal/saml/canon.go:167-343 | a printed meaning followed by anything can be read in one way only |
| Unambiguous.CanonicalReadBack | internal/saml/canon.go:167-343 | a plain reader of tags, declarations, attributes, references and end tags, given the canonical bytes of any tree with XML names and the scope around them, reads the meaning of the tree: names, bound URIs, values and text as they were |
| Unambiguous.CanonicalTextIsMeaning | internal/saml/canon.go:167-343 | two trees with XML names have equal canonical bytes if and only if their meanings are equal |
| Context.ContextThroughFreePrefixes | internal/saml/canon.go:184-230 | two scopes give a tree the same canonical bytes if and only if they agree on the prefixes it uses without declaring |
| Context.MeaningOfFree | internal/saml/canon.go:184-230 | scopes that agree on the free prefixes give the same meaning |
| Context.OrderIrrelevant | internal/saml/canon.go:216-275 | permuting attributes and declarations of a tag never changes the output when prefixes and expanded names are distinct |
| Context.AttributesInOrder | internal/saml/canon.go:216-275 | exactly the attributes that are no declarations are written, each with its value, in increasing order of namespace and then local name |
| Context.SplitsAtFirstColon | internal/saml/canon.go:123-130 | a qualified name is split at its first colon, and has no prefix if there is none |
| Output.OutputAt | internal/saml/canon.go:184-230 | the canonical text of every document is, for each of its elements, the text of the siblings and start tags before it, the element written with exactly the declarations of its output ancestors in force, and the text after it |
| Output.DeclaredExactlyWhenNew | internal/saml/canon.go:197-215 | at every element of every document a prefix is declared if and only if it is visibly used and the nearest output ancestor's declaration of it is absent or different; declarations come in increasing order before the attributes |
| Output.WrittenIsNearest | internal/saml/canon.go:197-215 | the output scope below a chain of ancestors is the nearest declaration of each prefix |
| Decode.DecodedInside | internal/saml/xmldoc.go:62-74 | the scope computed from decoded tags is the one the text declares |
| Decode.DecodesAlike | internal/saml/xmldoc.go:36-86 | decoding a fragment depends on the scope around it through its free prefixes only |
| Signature.ConstantTimeEqual | internal/saml/xmldsig.go:244-253 | the accumulator without early exit decides equality |
| Signature.VerifiedExactly | internal/saml/xmldsig.go:70-233 | a document verifies with a given Assertion and Response if and only if the Response is its root, the Assertion the only one in it, one of the two has a Signature, and each that has one carries an ID, a Reference to it with the SHA-256 digest, under either of its two names, of its canonical bytes without the signature, and a SignatureValue by the certificate's RSA key over the hash of the canonical SignedInfo; all names and algorithms written out |
| Verifier.CheckDigest | internal/saml/xmldsig.go:163-197 | every error and its order; no error means the Reference names the parent and announces the digest of the parent without the signature |
| Verifier.CheckValue | internal/saml/xmldsig.go:199-232 | every error and its order; no error means the signature value verifies over the canonical SignedInfo |
| Verifier.CheckEnveloped | internal/saml/xmldsig.go:148-233 | digest and signature are both checked, in that order |
| Verifier.VerifyResponse | internal/saml/xmldsig.go:70-111 | accepts exactly a Response with one Assertion, at least one signature and no failing one, and returns that Assertion's range |
| Signing.SignSucceeds | internal/saml/sign.go:20-70 | signing succeeds if and only if no element lies more than 256 levels below the signed one |
| Signing.BuiltIsSigned | internal/saml/sign.go:20-70 | the output is the signed element with the certificate after the signature value, or an error when it nests too deeply |
| Signing.BuiltExactly | internal/saml/sign.go:42-69 | the signature goes first in the element; every element, attribute and algorithm of it written out, with the digest of the canonical element, the signature over the canonical SignedInfo and the certificate |
| RoundTrip.SignatureHolds | internal/saml/sign.go:20-70 | the signature spliced into an element passes the check in every scope that agrees on the element's free prefixes |
| RoundTrip.SignedVerifies | internal/saml/sign.go:20-70 | for every body within the depth limit, every Response context that rebinds no free prefix, has no Signature child and holds no other Assertion, and every tail of the signature, the signed Assertion is accepted, the returned range is that Assertion and the digested bytes are those it had on its own |
| RoundTrip.ExcludedChild | internal/saml/xmldsig.go:188-197 | leaving out the spliced signature gives the bytes of the element that never had it |
| RoundTrip.InfoEverywhere | internal/saml/sign.go:37-58 | SignedInfo has the same bytes alone and inside the Signature |
| Response.AcceptedMeans | internal/saml/response.go:48-170 | a response is accepted with given claims if and only if its signatures verify, Destination and Recipient are this endpoint if present, both expiry times and the start hold up to the skew, this service provider is an Audience of the first AudienceRestriction, the request sent is answered, and the claims are those read |
| Response.EndpointNotNeeded | internal/saml/response.go:58-97 | what is accepted with Destination and Recipient is accepted without, with the same claims; both match if and only if both are present |
| Acceptance.AcceptedExactly | internal/saml/response.go:48-170 | given claims are accepted if and only if the document verifies, its Destination is absent or this endpoint, and its Assertion says them: identifier, issuer and subject between white space, the confirmation's Recipient and times, the time window, an Audience that is this service provider, the session, and for each attribute name the values in document order; stated on elements and literals, without the reading functions |
| Acceptance.AudienceBetweenSpaces | internal/saml/response.go:180-191 | an Audience of white space, the entity ID and white space names the entity ID unless that itself begins or ends with white space |
| Text.TrimsExactly | internal/saml/response.go:180-191 | one text is the trimming of another if and only if that is white space, the text and white space, and the text neither begins nor ends with white space |
| Reader.CheckAudience | internal/saml/response.go:180-191 | true if and only if some Audience is the entity ID between white space |
| Reader.CheckConfirmation | internal/saml/response.go:90-113 | every check on SubjectConfirmationData and its order, and the InResponseTo read |
| Reader.CheckConditions | internal/saml/response.go:121-149 | every check on Conditions and its order, and the two times read |
| Reader.ReadAttributes | internal/saml/response.go:151-167 | the nested loops collect, per name, the values of all attributes in document order; an attribute goes by its Name, or its FriendlyName if that is missing or empty, and one without either is left out |
| Reader.ParseAndVerifyResponse | internal/saml/response.go:48-170 | the first failing check, or all fields of the assertion, for every decoded document |
| Claims.SignedReading | internal/saml/response.go:63-147 | ID, issuer, subject, confirmation and conditions are functions of the meaning of the assertion without its signature |
| Claims.SignedAttributes | internal/saml/response.go:151-167 | the attributes are those of the signed content if and only if the signature itself holds no attribute statement |
| Covered.DigestedSense | internal/saml/xmldsig.go:188-197 | the signed meaning of an element is the meaning of the tree whose canonical text is digested |
| Covered.ResponseExactly | internal/saml/xmldsig.go:85-110 | with a signed Response the reading is that of the one Assertion in its signed meaning if and only if its signature holds no Assertion; otherwise its signed meaning holds none |
| Covered.ClaimsCovered | internal/saml/response.go:11-13 | in every verified document all that is read is in the signed meaning of the Assertion or of the Response if and only if the Assertion's signature holds no attribute statement or the Response's signature holds no Assertion |
| Covered.ReadableCovered | internal/saml/response.go:11-13 | the same for all documents with XML names, bound prefixes and legible tags |
| Covered.SameResponseSameClaims | internal/saml/response.go:48-170 | two accepted responses signed as a whole over equal bytes make the same claims, all of them, when neither signature holds an Assertion |
| Claims.SameBytesSameReading | internal/saml/response.go:63-167 | assertions with equal digested bytes are read alike |
| Claims.SameBytesSameClaims | internal/saml/response.go:63-167 | two accepted responses whose assertions minus the signature have equal canonical bytes make the same claims; attributes too if their signatures hold no attribute statement |
| Claims.SignedInfoDeterminesBytes | internal/saml/xmldsig.go:148-233 | if two signatures hold over the same SignedInfo bytes and the digest does not collide on them, the digested bytes are equal |
| Claims.SameInfoSameClaims | internal/saml/response.go:48-170 | two accepted responses signed over the same SignedInfo bytes make the same claims unless the digest collides |
| Legible.SignedDeterminesClaims | internal/saml/response.go:48-170 | the same for all documents with XML names, bound prefixes and legible tags |
| Coverage.TailIsRead | internal/saml/response.go:151-167 | whatever follows the signature value, the signed Assertion is accepted with the same digested bytes and the attribute statements there are read before the signed ones |
| Instances.UncoveredClaim | internal/saml/response.go:151-167 | for every Assertion acceptable by itself there is an accepted Response with the same claims but one more attribute value, which no signature covers |
| Coverage.UnsignedAssertion | internal/saml/xmldsig.go:85-110 | a Response that holds no Assertion and is signed itself is accepted with any unsigned Assertion inside its signature: the digested bytes are unchanged, and what is reported and read is that Assertion |
| Examples.EndpointExample | internal/saml/response.go:58-97 | a signed document with neither Destination nor Recipient that is accepted at every endpoint |
| Examples.UncoveredExample | internal/saml/response.go:151-167 | a Response accepted with an attribute although its signed content has none |
| Examples.UnsignedExample | internal/saml/xmldsig.go:85-110 | a Response accepted with all its claims although its signed content holds no Assertion |
| Legible.SameValue | internal/saml/xmldoc.go:154-161 | when local names are unique in a tag and no prefix is spelled like an attribute looked for, the attribute found is the one the canonical bytes show |
| Legible.ReadableDocuments | internal/saml/xmldoc.go:154-161 | documents with XML names, bound prefixes and legible tags meet the conditions of the claims results |
| FilterLexer.Tokenize | internal/scim/filter.go:236-287 | ends on every input with the tokens or the first error |
| FilterLexer.LexShape | internal/scim/filter.go:284-286 | the end marker is the last token and the only one |
| FilterLexer.QuotedEscape | internal/scim/filter.go:252-266 | a string with quotes and backslashes escaped is read back unchanged |
| FilterLexer.LexSpell | internal/scim/filter.go:236-312 | printing any list of printable tokens and tokenizing gives back exactly that list |
| FilterLexer.WordsExactly | internal/scim/filter.go:289-312 | which words are `and`, `or`, `not`, `pr`, an operator, a truth value or null is decided by their lower-case form against the sixteen words written out; an operator is kept in lower case, and every other word is an attribute |
| FilterLexer.NumbersWhole | internal/scim/filter.go:267-272 | a digit, or a minus sign and a digit, followed by digits and dots is read as one number |
| FilterLexer.LexPrintable | internal/scim/filter.go:236-312 | every token read has a text of its own that reads back as it |
| FilterParser.Parser.Next | internal/scim/filter.go:350 | consumes one token, and leaves the position on a token unless that was the end marker |
| FilterParser.Parser.ParseCompValue | internal/scim/filter.go:451-469 | the value of the next token or the error, consuming one token either way |
| FilterParser.Parser.ParseTerm | internal/scim/filter.go:392-449 | never indexes past the tokens; on success the position is on a token and the depth is restored |
| FilterParser.Parser.ParseAnd | internal/scim/filter.go:372-390 | reads the longest run of terms joined by `and`, same promises |
| FilterParser.Parser.ParseOr | internal/scim/filter.go:352-370 | reads the longest run of conjunctions joined by `or`, same promises |
| FilterParser.ParseFilter | internal/scim/filter.go:330-347 | total on every input: nothing for blank text, else a tree or an error |
| FilterGrammar.AcceptsExactly | internal/scim/filter.go:14-19 | the parser gives a tree for a token list if and only if some sentence of the grammar with parentheses nested at most 128 deep spells the list and stands for the tree |
| FilterRoundTrip.PrintThenParse | internal/scim/filter.go:236-469 | printing a tree and parsing the text gives back exactly the tree if and only if its parentheses nest at most 128 deep |
| FilterCase.PrintThenParseAnyCase | internal/scim/filter.go:236-469 | a printed filter parses to the same tree whatever the letter case of its keywords and operators |
| FilterCase.AnyCase | internal/scim/filter.go:293-304 | changing the letter case of keywords and operators in any printable token list changes nothing in what the parser gives |
| FilterRoundTrip.ParseThenPrint | internal/scim/filter.go:316-469 | every accepted text gives a printable tree nesting at most 128 deep whose printed form parses to the same tree |
| Timestamp.SecondsAscend | internal/store/sessions.go:86-91 | between different whole seconds text order is time order |
| Timestamp.InsideSecond | internal/store/sessions.go:86-91 | inside one second text order is time order if and only if the earlier fraction's digits do not begin the later's |
| Timestamp.TextDisagrees | internal/store/sessions.go:86-91 | half past a second sorts before the second itself |
| SessionStore.Store.MarkAssertionUsed | internal/store/sessions.go:85-99 | purges by text, then records the assertion unless a row with its key is left |
| SessionStore.Store.PutSAMLRequest | internal/store/sessions.go:103-108 | adds a row that expires after the given time, unless the ID is taken |
| SessionStore.Store.TakeSAMLRequest | internal/store/sessions.go:112-130 | deletes the tenant's pending row and says whether it had not expired |
| SessionStore.Store.PutOIDCRequest | internal/store/sessions.go:142-148 | adds a row with nonce and verifier, unless the state is taken |
| SessionStore.Store.TakeOIDCRequest | internal/store/sessions.go:150-170 | deletes the pending row whatever its tenant and returns it if it had not expired |
| SessionStore.Store.CreateSession | internal/store/sessions.go:33-49 | adds a row with creation time and expiry |
| SessionStore.Store.GetSession | internal/store/sessions.go:51-73 | returns a session only before its expiry and deletes it after |
| Protocol.AtMostOnePasses | internal/saml/sp.go:205-222 | in every interleaving, a second handler passes the replay check for a tenant and assertion ID only in a clock second not before the recorded NotOnOrAfter |
| Protocol.ReplayWindow | internal/saml/response.go:142 | any replay of an accepted assertion was verified by its NotOnOrAfter plus the skew and passes no earlier than the second of its NotOnOrAfter |
| Protocol.ReplayPasses | internal/store/sessions.go:85-99 | outside the recorded second a handling of a recorded assertion passes the check if and only if the recorded time is past |
| Protocol.PassesInSkew | internal/saml/response.go:142 | every assertion handled at once and again in the skew after its NotOnOrAfter passes twice |
| Protocol.PassedTwice | internal/store/sessions.go:86-91 | a run in which the same assertion passes twice in the second its record runs out in |
| Protocol.MarkUninterrupted | internal/store/sessions.go:85-99 | the steps of the replay check run without interruption are the store's method |
| Protocol.RunReplay | internal/store/sessions.go:85-99 | in every reachable state an assertion that passed still has its row while the clock's second is before the recorded one |
| Protocol.PurgedByTime | internal/store/sessions.go:86-87 | between different seconds the purge deletes a record if and only if it has run out |
| Protocol.OneSessionPerRequest | internal/store/sessions.go:110-170 | in every run each AuthnRequest ID and each OIDC state leads to at most one session |
| Protocol.SessionsAnswerRequests | internal/oidc/handlers.go:91-137 | in every run a session that answers a request is for the tenant it was issued to, the request was taken within ten minutes of issue, and an OIDC session's token carried that login's nonce |
| Protocol.RunOneUse | internal/saml/sp.go:224-232 | in every reachable state a request is pending, or held by one handler, or spent on one session, or gone |
| Protocol.RunFits | internal/saml/sp.go:243-250 | in every reachable state each session row was made by a completed login and expires eight hours after |
| Provenance.SessionsTraced | internal/saml/sp.go:224-250 | in every run each session was made by one Finish, at its clock and with its user, attributes and identifier, of a handler whose own action before it gave the rest: tenant and subject of the assertion verified and method saml, or the tenant of the callback, the subject and nonce of the token and method oidc; read from the list of actions |
| Logins.SessionsExactly | internal/store/sessions.go:51-73 | in every run a cookie is good for a session if and only if that session was made under it and has not expired |
| Logins.PendingExactly | internal/store/sessions.go:103-170 | in every run a request is pending if and only if it was issued and not taken since, and its row has the tenant and the nonce of its login and expires ten minutes after it |
| Logins.SamlLogin | internal/saml/sp.go:205-250 | handled to its end after any run, an acceptable assertion makes exactly one session, for its subject, unless it was used before, answers a request that is not pending, or the session identifier is taken |
| Logins.OidcLogin | internal/oidc/handlers.go:91-158 | handled to its end in any state, a callback makes exactly one session if and only if its state is pending for the tenant, the token names a subject and carries the nonce sent, and the session identifier is free |
| Groups.Directory.ReplaceMembers | internal/store/groups.go:81-91 | the group's rows become exactly the given users, other groups' rows stay |
| Groups.Directory.CreateGroup | internal/store/groups.go:54-79 | draws an identifier if there is none; conflict on identifier or name without any change, else row and members |
| Groups.Directory.ReplaceGroup | internal/store/groups.go:145-169 | not found or conflict without any change, else row with the next version and members |
| Groups.Directory.DeleteGroup | internal/store/groups.go:171-185 | the row goes if it is the tenant's, the membership rows go by group ID alone |
| Groups.Directory.DeleteUser | internal/store/users.go:158-171 | the row goes if it is the tenant's, the membership rows go by user ID alone |
| Groups.Directory.GetGroup | internal/store/groups.go:93-104 | the tenant's group with its members in increasing order, each once |
| Groups.Directory.GroupsForUser | internal/store/groups.go:188-204 | exactly the tenant's groups that have a row for the user, each once |
| Groups.Directory.PatchGroup | internal/scim/groups_handler.go:115-139 | fetch, patch a copy, write back: a refused patch or a conflict changes nothing |
| GroupPatch.ExtractMemberIDs | internal/scim/patch.go:188-209 | the identifiers in a list, an object or a string, in order |
| GroupPatch.MemberIDsAre | internal/scim/patch.go:188-209 | an identifier is among those read if and only if the value, or an item of it, is that text or an object with it |
| GroupPatch.MemberAfter | internal/scim/patch.go:147-186 | who is a member after one operation, for every operation and path, in terms of the members before and the values named |
| GroupPatch.PathRead | internal/scim/patch.go:55-62 | a path is read as the lower-case form of its attribute: without a filter, either spelling of the enterprise prefix, or white space around it |
| GroupPatch.NameAfter | internal/scim/patch.go:174-179 | a group is renamed by replacing displayName, to the text given or else to nothing, and by no other operation |
| GroupPatch.PatchesInOrder | internal/scim/patch.go:147-186 | a list of operations has the effect of its first part and then of the rest |
| GroupPatch.AddMembers | internal/scim/patch.go:153-158 | union; keeps the order and adds nothing twice |
| GroupPatch.RemoveAll | internal/scim/patch.go:230-242 | difference; keeps the order |
| GroupPatch.ApplyGroupPatch | internal/scim/patch.go:147-186 | refused if and only if some operation is unsupported; else add is union, remove with values difference, remove without values empties, replace assigns, in order, and only name and members change |
| GroupPatch.FilteredRemoveClears | internal/scim/patch.go:160-165 | removing `members[...]` without a value empties the group; it removes just the member named if and only if there is no other |
| GroupPatch.FilteredRemoveOfValues | internal/scim/patch.go:160-167 | with values it removes those; it removes just the member named if and only if values and filter name the same members of the group |
| GroupPatch.BracketedFound | internal/scim/patch.go:211-219 | the regular expression finds the identifier in every path of the documented form |
| GroupPatch.RemoveOneRemovesBoth | internal/scim/patch.go:160-165 | the documented request to remove one of two members removes both |
| GroupRuns.Refines | internal/store/groups.go:54-204 | every call does to the map from group to set of users what its abstract counterpart does |
| GroupRuns.RefusedExactly | internal/store/groups.go:54-169 | creating succeeds if and only if the identifier is free and names stay unique; replacing finds nothing if and only if the group is not the tenant's, and otherwise succeeds if and only if names stay unique |
| GroupRuns.WrittenThenFetched | internal/store/groups.go:54-169 | what was created or replaced is what is fetched, with the members in increasing order and each once |
| GroupRuns.OthersUntouched | internal/store/groups.go:54-185 | no call touches another group's row, another user's, or memberships other than those of its subject |
| GroupRuns.RunKeeps | internal/store/groups.go:54-204 | in every run each membership row names an existing group, names stay unique per tenant, and the map is the whole content of the membership table |
| GroupRuns.FailedCalls | internal/store/groups.go:54-185 | a failed call changes nothing if and only if it is no delete whose identifier still has membership rows |
| GroupRuns.ForeignDelete | internal/store/groups.go:171-185 | a delete by another tenant can report not found and still change the tables |
| GroupRuns.Inverse | internal/store/groups.go:93-204 | a group lists a user if and only if the user's groups list the group |
| Abac.Evaluate | internal/abac/evaluator.go:24-45 | Allow if and only if some matching Allow and no matching Deny exists; the decision names the first policy that made it |
| Abac.CheckPolicies | internal/abac/policy.go:52-70 | accepts exactly the lists of acceptable policies and otherwise reports the first that is not |
| Abac.ValidExactly | internal/abac/policy.go:72-109 | a condition is accepted if and only if every node in it is either a group or a leaf with both attribute and operator |
| Abac.NumbersCompare | internal/abac/evaluator.go:164-239 | on numbers the six operators are the six comparisons |
| Abac.EqualityOf | internal/abac/evaluator.go:188-205 | two texts, numbers or truth values are equal if and only if they are the same, anything else if it is written alike |
| Abac.OthersDoNotCompare | internal/abac/evaluator.go:219-224 | what is not two numbers is neither greater nor less |
| Abac.PresenceOf | internal/abac/evaluator.go:99-186 | a missing attribute satisfies inequality only; one that is there is present unless it is null or empty text |
| Abac.MembershipIsEquality | internal/abac/evaluator.go:128-163 | `in` holds if and only if equality with some item does, and a list contains a value if and only if some item equals it |
| Abac.PatternStandsFor | internal/abac/evaluator.go:54-59 | a pattern matches itself and, if it ends in a star, everything that begins with the rest of it; nothing else |
| Abac.OrderIrrelevant | internal/abac/evaluator.go:19-45 | the effect is invariant under permutation and duplication |
| Abac.AddedDenials | internal/abac/evaluator.go:24-45 | added Deny policies never create an Allow and revoke one if and only if some added policy applies |
| Abac.EvalIsTruth | internal/abac/evaluator.go:61-82 | with at most one group per node evaluation is the Boolean meaning |
| Abac.OnlyFirstGroups | internal/abac/evaluator.go:61-82 | every condition evaluates as if only the first group of each node were written, and stays valid |
| Abac.SecondGroupIgnored | internal/abac/policy.go:73-89 | an accepted condition can hold although a group in it is false |
| Abac.PushPreserves | internal/abac/evaluator.go:61-82 | pushing `not` inward with all/any and eq/ne exchanged changes no decision and keeps validity |
| Abac.SwapNegates | internal/abac/evaluator.go:164-167 | eq and ne are complements, also for a missing attribute |
| Gate.MapRoute | cmd/gateway/main.go:92-103 | whatever order the routes are walked in, the resource of a longest matching prefix, or none if none matches |
| Gate.RouteChosen | cmd/gateway/main.go:92-103 | there is one such resource only |
| Gate.StripReserved | internal/authz/middleware.go:108-112 | deleting while walking removes exactly the reserved headers |
| Gate.SetIdentity | internal/authz/middleware.go:113-119 | sets tenant, user, subject and method, and the department if the session has one as text |
| Gate.Enforce | internal/authz/middleware.go:69-121 | forwards exactly requests with an unexpired session, a route and an Allow, with the reserved headers replaced; only the session table may change |
| Gate.ReservedExactly | internal/authz/middleware.go:108-119 | what is forwarded carries exactly the tenant, user, subject, method and text department of the session under the five header names written out, no other reserved header, and all others untouched |
| Gate.ForwardedMeans | internal/authz/middleware.go:69-121 | in every run a request is forwarded with given headers if and only if its cookie names a session that a completed login made and that has not expired, an Allow is given for the resource of a longest matching route, and the headers carry that session |
| Gate.RefusedMeans | internal/authz/middleware.go:69-100 | in every run a request is unauthenticated if and only if it comes without an unexpired session made by a login, has no route if and only if no prefix matches its path, and is denied if and only if its session is not granted the resource of the longest matching prefix |
| Paging.ParsePaging | internal/scim/server.go:122-139 | start defaults to 1, size to 100 and is at most 500 |
| Paging.ListUsers | internal/scim/users_handler.go:9-48 | the total and the page of the matching users, or the filter's error |
| Paging.MatchedInOrder | internal/scim/users_handler.go:20-25 | the matching users are those at all matching places of the list, in its order, each place once |
| Paging.PagesConcatenate | internal/scim/users_handler.go:20-46 | pages of any size from 1 to 500 concatenate to exactly the matching users in list order, with the same total on every page |

## Left out

- SHA-256, base64, RSA and certificates: functions in `Signature.Crypto`; `RoundTrip.Sound` assumes that decoding undoes encoding and that the certificate verifies what its key signed.
- Go's XML decoder: the model starts at a balanced token list with the source text of each start tag; `Decode` assumes how prefixes are resolved, and names that end in a colon or have several are not considered.
- BuildSignedElementXML's string assembly: the signed element is built as a tree of written tags, and the printed text is assumed to decode to it.
- sort.Slice: modelled as a stable sort, which makes no difference for distinct keys (`Order.SortPermutation`).
- The `xml` prefix gets no special treatment in the canonicalizer, as in the code; `Legible` excludes elements with it.
- findByID, findDescendant: not used by the verification path.
- Unicode tables, letter case and number parsing of filters: functions in `FilterLexer.Alphabet` that agree with ASCII, capitals and small letters included; numbers are reals, and comparing with `true` ignores case through lower-casing.
- Filter evaluation on users (`Eval`, `compare`, `attrValue`): an arbitrary predicate in `Paging`; member by member it would only add easy ones.
- SQLite: each table is a map under its primary key and each statement one step; a Take is its SELECT and DELETE in one step, although the code runs them without a transaction.
- Clock, random identifiers: the clock never runs backwards and login identifiers and nonces are fresh and not empty; times start at 1970, and the replay results are about years up to 9999.
- Stored expiry times of requests and sessions: kept as times, assuming that parsing undoes formatting.
- ID token decoding and key discovery: a step that compares the nonce and yields a subject.
- User provisioning at login, and the handler's HTTP answers.
- Groups.Directory.GroupsForUser: the order of the result is not specified, as in the query.
- User patches (`setUserField`, `clearUserField`) and resource conversion: long field-by-field switches.
- Abac: CIDR, regular-expression and substring tests, named predicates and value printing are arbitrary functions of the context; a Go list of strings is treated like any list.
- Gate: header names are taken to be in canonical form, as the HTTP server delivers them; the client address and the audit log are not modelled.
- Development mocks and the demo page.
