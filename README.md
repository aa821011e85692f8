# LDAP group lookup of the Ballerina auth module, in Dafny

This project models `GetGroups.java`, the native function that returns the LDAP groups of a user. It proves properties of that model.

The lookup runs in four steps:

1. It finds the user's distinguished name (DN) in the directory.
2. It works out the membership value:
   - If the membership attribute is `memberUid` (a posixGroup, RFC 2307), the value is the bare value of the most specific RDN.
   - Otherwise the value is the whole DN. Each RDN is escaped on its own, and the RDNs are joined with commas, most specific first.
3. It puts that value into the filter `(&<group filter>(<attribute>=<value>))`.
4. It searches every configured group base in order. It collects every value of the group-name attribute from the entries returned.

An empty result reaches the caller as `null`. Directory errors and the configuration error reach the caller as an error value. The unchecked exceptions are not caught.

Modules:

- `Results` (results.dfy): option and result values, and the unchecked Java exceptions.
- `FilterEscape` (filter_escape.dfy): the filter-value escaper.
  - `Escape` is the specification and `EscapeSpecialCharactersForFilter` is the loop.
  - `Decode` reads a filter value with the escaping of section 3 of RFC 4515. A value with an unescaped `*` is read as a substring pattern, each such `*` a wildcard.
- `LdapNames` (ldap_names.dfy): names as `seq<Rdn>` in JNDI order, with index 0 the root-most RDN.
  - `EscapedDn` is the specification and `EscapeLdapNameForFilter` is the descending loop.
  - `Join`, `Reversed` and `EscapeAll` give an independent definition of the same value.
- `GroupSearch` (group_search.dfy): the search over several bases.
  - `ListOfNames` is the specification and `GetListOfNames` is the nested loop.
  - `Requests` lists the searches that are actually issued.
- `LdapGroups` (ldap_groups.dfy): the configuration, the choice of membership value, the filter template, `GroupsListOfUser`, the entry point `GetGroups`, and a parenthesis-depth reading of filters.
- `EscapeScenarios`, `MembershipScenarios`, `SearchScenarios` (scenarios.dfy): worked cases.

The directory is passed in as functions:

- `nameInSpace` finds the user's DN.
- `parseName` parses a DN into RDNs.
- `escapeBase` escapes a search base.
- `search` runs one search.

A search is a pure function of its request (base, filter, scope, returned attributes). So "no search is issued" is stated two ways. The list of issued searches is empty. And the reply does not change when the directory answers differently to any request that was not issued.

Behaviour of the code worth noting, which the model keeps:

- The DN lookup runs before the membership-attribute check, so a lookup error is reported in place of the configuration error.
- An empty list becomes `null` at the entry point.
- An RDN whose string form ends in a backslash makes the escaper read past its end. This raises an uncaught `StringIndexOutOfBoundsException`; it is not escaped as `\5c`. For example, the RDN text `cn=a\\` holds the value `a\`.

## Model

| member | source | states |
|---|---|---|
| `FilterEscape.EscapeSpecialCharactersForFilter` | auth-native/src/main/java/org/ballerinalang/stdlib/auth/ldap/nativeimpl/GetGroups.java:196-223 | The index loop with its in-loop skip after `\*` computes exactly `Escape(filter)`. It returns the out-of-range failure when the look-ahead runs off the end. |
| `FilterEscape.EscapeFails` | auth-native/src/main/java/org/ballerinalang/stdlib/auth/ldap/nativeimpl/GetGroups.java:201-208 | Escaping fails if and only if the input ends in a backslash. The failure is a string index out of range at index `|s|`. |
| `FilterEscape.DecodeEscape` | auth-native/src/main/java/org/ballerinalang/stdlib/auth/ldap/nativeimpl/GetGroups.java:200-220 | The escaped text is well-formed under the escaping of section 3 of RFC 4515, read as a substring pattern when it holds a bare `*`. Reading it back gives the input: `(`, `)`, NUL and `\` as themselves, a `\*` pair as a literal `*`, a bare `*` as a wildcard, and every other character unchanged and in order. |
| `FilterEscape.EscapeHasNoMetachars` | auth-native/src/main/java/org/ballerinalang/stdlib/auth/ldap/nativeimpl/GetGroups.java:209-217 | The escaped text never contains a raw `(`, `)` or NUL. |
| `FilterEscape.EscapePlain` | auth-native/src/main/java/org/ballerinalang/stdlib/auth/ldap/nativeimpl/GetGroups.java:218-219 | Text with no backslash, parenthesis or NUL passes through unchanged. |
| `LdapNames.EscapeLdapNameForFilter` | auth-native/src/main/java/org/ballerinalang/stdlib/auth/ldap/nativeimpl/GetGroups.java:172-188 | A null name gives null. Otherwise the descending loop gives exactly `EscapedDn`, or the escaper's failure. |
| `LdapNames.EscapedDnIsJoin` | auth-native/src/main/java/org/ballerinalang/stdlib/auth/ldap/nativeimpl/GetGroups.java:178-185 | The re-assembled DN is `esc(rdn[n-1]) + "," + … + "," + esc(rdn[0])`: the comma-join of the escaped RDNs, most specific first. The first failure in that order is the result. |
| `LdapNames.EscapedDnFails` | auth-native/src/main/java/org/ballerinalang/stdlib/auth/ldap/nativeimpl/GetGroups.java:180-181 | Re-assembly fails if and only if some RDN's string form ends in a backslash. |
| `LdapNames.EscapedDnHasNoMetachars` | auth-native/src/main/java/org/ballerinalang/stdlib/auth/ldap/nativeimpl/GetGroups.java:178-187 | The re-assembled DN contains no raw `(`, `)` or NUL. |
| `LdapNames.EscapedDnEnds` | auth-native/src/main/java/org/ballerinalang/stdlib/auth/ldap/nativeimpl/GetGroups.java:180-185 | The DN starts with the escaped most specific RDN and ends with the escaped root-most RDN. For one RDN it is exactly that RDN escaped. For more, it is the escaped most specific RDN, one comma, then the re-assembly of the remaining RDNs. |
| `GroupSearch.GetListOfNames` | auth-native/src/main/java/org/ballerinalang/stdlib/auth/ldap/nativeimpl/GetGroups.java:119-151 | The three nested loops compute exactly `ListOfNames`: the first search that fails aborts with its error. The searches the loop sends are exactly `Requests`: one per base, in order, and none after a failure. |
| `GroupSearch.NamesFromEntriesIsFlatten` | auth-native/src/main/java/org/ballerinalang/stdlib/auth/ldap/nativeimpl/GetGroups.java:131-145 | The names of one answer are the flattened concatenation of every entry's values, in entry order and then value order. Nothing is dropped, sorted or deduplicated. |
| `GroupSearch.NamesFromEntriesAppend` | auth-native/src/main/java/org/ballerinalang/stdlib/auth/ldap/nativeimpl/GetGroups.java:131-145 | The names of consecutive entries are the names of each part, concatenated. |
| `GroupSearch.SkippedEntryContributesNothing` | auth-native/src/main/java/org/ballerinalang/stdlib/auth/ldap/nativeimpl/GetGroups.java:133-139 | An entry with null attributes, or without the property, does not change the names collected from the others. |
| `GroupSearch.NameFoundIff` | auth-native/src/main/java/org/ballerinalang/stdlib/auth/ldap/nativeimpl/GetGroups.java:136-144 | A name is collected if and only if some entry holds it as a value of the property. |
| `GroupSearch.ListOfNamesAppend` | auth-native/src/main/java/org/ballerinalang/stdlib/auth/ldap/nativeimpl/GetGroups.java:128-146 | Searching bases `a` then `b` gives the names of `a` followed by those of `b`, in configured order. A failure in `a` comes first. |
| `GroupSearch.FailureAborts` | auth-native/src/main/java/org/ballerinalang/stdlib/auth/ldap/nativeimpl/GetGroups.java:126-149 | A search that throws among the first bases gives the result of the whole collection; no partial list is returned for a thrown failure. |
| `GroupSearch.RequestsAfterFailure` | auth-native/src/main/java/org/ballerinalang/stdlib/auth/ldap/nativeimpl/GetGroups.java:126-149 | Once a search among the first bases has thrown, no later base is searched. |
| `GroupSearch.RequestsFollowBases` | auth-native/src/main/java/org/ballerinalang/stdlib/auth/ldap/nativeimpl/GetGroups.java:128-130 | The k-th search issued goes to the escaped k-th base, with the given filter and controls. All bases are searched on success; on failure the last search issued is the one that failed. |
| `GroupSearch.ListOfNamesDependsOnlyOnRequests` | auth-native/src/main/java/org/ballerinalang/stdlib/auth/ldap/nativeimpl/GetGroups.java:128-132 | The result depends on the directory only through its answers to the searches issued. |
| `LdapGroups.MembershipValue` | auth-native/src/main/java/org/ballerinalang/stdlib/auth/ldap/nativeimpl/GetGroups.java:96-105 | For `memberUid` the value is the unescaped value of `rdns[size-1]`, and an empty name is an index-out-of-range at -1. For any other attribute the value is the comma-join of the escaped RDNs, most specific first, as `escapeLdapNameForFilter` builds it. It succeeds if and only if no RDN ends in a backslash, and then it holds no raw `(`, `)` or NUL. |
| `LdapGroups.ConfigurationCheckedBeforeNotFound` | auth-native/src/main/java/org/ballerinalang/stdlib/auth/ldap/nativeimpl/GetGroups.java:90-94 | Once the DN lookup returns, a null or empty membership attribute gives the configuration error message, even for an unknown user. No search is issued. |
| `LdapGroups.UnknownUserHasNoGroups` | auth-native/src/main/java/org/ballerinalang/stdlib/auth/ldap/nativeimpl/GetGroups.java:97-108 | A user with no DN gets an empty list, the caller gets null, and no group search is issued. |
| `LdapGroups.GetGroups` | auth-native/src/main/java/org/ballerinalang/stdlib/auth/ldap/nativeimpl/GetGroups.java:54-72 | The entry point returns null exactly when the collected list is empty, and otherwise the list itself. A configuration or directory error becomes an error value with the same message. An unchecked exception is not caught and leaves the entry point. |
| `LdapGroups.MembershipFilter` | auth-native/src/main/java/org/ballerinalang/stdlib/auth/ldap/nativeimpl/GetGroups.java:90-110 | A failed DN lookup is reported first. Once the lookup has returned, an unset membership attribute gives the configuration error even for an unknown user. The user is "not found" exactly when the lookup returns null and the attribute is set. For a found user, a parse failure is a directory error with the parser's message, and a failing membership value is that unchecked exception. Otherwise the filter is the template around the membership value. Conversely, a built filter or an unchecked failure arises only on that path. |
| `LdapGroups.GroupsListOfUser` | auth-native/src/main/java/org/ballerinalang/stdlib/auth/ldap/nativeimpl/GetGroups.java:81-117 | A failure before the search is the result, and a user with no DN gets an empty list. Otherwise the result is the list collected over the configured bases with the composed filter, and a failed search becomes a directory error with its message. |
| `LdapGroups.SearchesUseComposedFilter` | auth-native/src/main/java/org/ballerinalang/stdlib/auth/ldap/nativeimpl/GetGroups.java:104-115 | For a user whose DN parses and whose membership value succeeds, the filter is exactly `"(&" + filter + "(" + attribute + "=" + value + "))"`. The searches issued are exactly those of collecting over the configured bases with that filter, a subtree scope and the group-name attribute as the only returned attribute: they go to the escaped bases in order. |
| `LdapGroups.ReplyDependsOnlyOnIssuedSearches` | auth-native/src/main/java/org/ballerinalang/stdlib/auth/ldap/nativeimpl/GetGroups.java:110-116 | The reply does not depend on how the directory would answer any search that was not issued. |
| `LdapGroups.TrailingBackslashIsUncaught` | auth-native/src/main/java/org/ballerinalang/stdlib/auth/ldap/nativeimpl/GetGroups.java:201-202 | With DN membership, an RDN ending in a backslash makes the entry point throw a string-index exception that the catch does not handle. No group search is issued. |
| `LdapGroups.DnFilterIsBalanced` | auth-native/src/main/java/org/ballerinalang/stdlib/auth/ldap/nativeimpl/GetGroups.java:104-110 | With DN membership, a balanced group filter and an attribute name without parentheses give a balanced filter, whatever the user's DN. |
| `EscapeScenarios.EscapeExample` | auth-native/src/main/java/org/ballerinalang/stdlib/auth/ldap/nativeimpl/GetGroups.java:196-223 | `a(b)c\d<NUL>e\*f*` escapes to `a\28b\29c\5cd\00e\2af*`. |
| `MembershipScenarios.FourComponentExample` | auth-native/src/main/java/org/ballerinalang/stdlib/auth/ldap/nativeimpl/GetGroups.java:99-104 | For a name like cn=alice,ou=users,dc=example,dc=com, DN membership gives that string back, most specific RDN first. `memberUid` gives the bare user value. |
| `MembershipScenarios.UidValueIsNotEscaped` | auth-native/src/main/java/org/ballerinalang/stdlib/auth/ldap/nativeimpl/GetGroups.java:99-110 | A `memberUid` value goes into the filter unescaped. A user id ending in `)` makes the filter unbalanced. |
| `SearchScenarios.TwoBasesExample` | auth-native/src/main/java/org/ballerinalang/stdlib/auth/ldap/nativeimpl/GetGroups.java:128-145 | Two bases, each with one two-valued entry, give four names in base order and then value order, with repeats kept. |
| `SearchScenarios.FailureOnSecondBaseExample` | auth-native/src/main/java/org/ballerinalang/stdlib/auth/ldap/nativeimpl/GetGroups.java:126-149 | A failure on the second of three bases is the result. The third base is never searched. |

## Left out

- JNDI search plumbing (`DirContext.search`, `NamingEnumeration`, `closeNamingEnumeration`): a search is one call that returns the entries the loop sees, in order, or the message of a `NamingException` thrown by `search(...)`, `next()` or `attr.getAll()`. The loop test `hasMoreElements()` cannot throw a `NamingException`. When the provider ends an enumeration early, for example on a size limit, the search is modelled as returning the shortened entry list, and the loop goes on to the next base. Closing cursors is not modelled; the code closes only the last one.
- `LdapUtils.getNameInSpaceForUsernameFromLDAP`, `LdapUtils.escapeDNForSearch` and DN parsing (`new LdapName`, `Rdn.toString`, `Rdn.getValue`): these library calls are passed in as functions (`nameInSpace`, `escapeBase`, `parseName`, the `Rdn` fields). RFC 4514 parsing is not modelled.
- `LdapUtils.createError`, `setServiceName` and `removeServiceName`: the error value is modelled by its message only, and the thread-local service name is not modelled.
- Ballerina runtime marshalling (`BMap.getNativeData`, `BString`, `StringUtils.fromStringArray`): the model works on Dafny strings and sequences.
- Logging calls.
- The `(String)` cast of attribute values: all values are taken to be strings, so a `ClassCastException` cannot occur in the model.
- Attribute names: they are matched exactly, as map keys. JNDI matches them case-insensitively.
- Null configuration strings (group filter, group-name attribute) and a null list of search bases: these are not modelled. Java would print a null filter as `null` or throw a `NullPointerException`. Only the membership attribute can be absent.
- Characters: Java `char` is a UTF-16 code unit, and Dafny's `char` is a Unicode scalar value. Lone surrogates cannot be written in the model.
