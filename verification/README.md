# FurrifyWS core, modelled in Dafny

FurrifyWS is a set of services for cataloguing furry art. This project models four pieces of its domain logic as pure Dafny functions and proves properties about them.

- **Artist aggregate** (artists service). This covers `Artist.restore` and `Artist.getSnapshot`, which convert between the aggregate and its stored snapshot. It also covers `Artist.updateNicknames`. That call replaces an artist's nicknames and/or preferred nickname. It enforces three rules:
  - the nickname set is not empty;
  - the preferred nickname is one of the nicknames;
  - a newly chosen preferred nickname is not already preferred by another artist of the same owner.

  The repository query behind the last rule is a parameter. The update returns the aggregate after the call together with the exception it threw, if any. This makes "a failed update changes nothing" a checked property.
- **DeviantArt source strategy, version 1** (sources service). This covers `validateMedia`, `validateUser` and `validateAttachment`.
  - They check the `url` entry of a source's data map in order: present and not blank, parsable, with a host, on `deviantart.com` once every `www.` is removed and ignoring case, then the path shape.
  - `validateMedia` then asks the scraper for the deviation id of the canonical URL, asks the DeviantArt API whether the deviation exists, and on success records `deviation_id`.
  - `validateUser` looks up the username and records `user_id` and `username`.
  - URI parsing, the scraper, the identity-provider token and the API are parameters.
- **Attachment factory** (posts service). `AttachmentFactory.from` copies a transfer object into the snapshot that `Attachment.restore` receives. It generates an attachment id and a creation date only where the object has none. The fresh UUID and the current time are parameters.
- **Avatar naming** (artists service). This is the naming part of `LocalStorageAvatarUploadStrategy.uploadAvatarWithGeneratedThumbnail`:
  - each run of `\s` characters in the filename becomes `_`;
  - the thumbnail is named `prefix + stem-before-last-dot + ".jpg"`;
  - the local and remote directories come from `MessageFormat` templates;
  - four names are produced: the two files and the two URIs.

  `new URI(...)` succeeding is a parameter.

The Java library behaviour these depend on is modelled in `java_strings.dfy`:
- `String.isBlank`;
- `String.equalsIgnoreCase`, with ASCII case mappings;
- `String.replace`, a single left-to-right pass;
- `lastIndexOf`;
- `substring`, which throws on bad bounds;
- `split("[/\\\\]")` with limit 0. With no separator it returns the input itself. Otherwise it keeps the leading empty piece and drops the trailing ones.

Files:
- `wrappers.dfy`: `Option`, `Result`, `Uuid`, `Timestamp`.
- `java_strings.dfy`: the Java library behaviour above.
- `artist.dfy`: the artist aggregate.
- `deviantart.dfy`: the DeviantArt strategy.
- `attachment_factory.dfy`: the attachment factory.
- `avatar_naming.dfy`: the avatar naming, and the `AvatarNamingDefaults` module with the default settings worked through.

The host check accepts `deviantart.www.com`, because `replace` removes `www.` anywhere in the host, not only at the start (`DeviantArtSource.WwwAnywhereAccepted`).

## Model

| member | source | states |
|---|---|---|
| `Artists.Restore` | FurrifyWS-Artists/artists-domain/src/main/java/ws/furrify/artists/artist/Artist.java:35-50 | Restoring copies the ids and the creation date, wraps each nickname, and wraps the preferred one. Apart from the null checks on the annotated fields (left out below), nothing is validated: the aggregate is non-empty with its preferred nickname among its nicknames exactly when the snapshot was. |
| `Artists.GetSnapshot` | FurrifyWS-Artists/artists-domain/src/main/java/ws/furrify/artists/artist/Artist.java:52-64 | The snapshot carries the same ids and creation date. A string is among its nicknames exactly when the aggregate holds that nickname. The preferred nickname is unwrapped. |
| `Artists.SnapshotRoundTrip` | FurrifyWS-Artists/artists-domain/src/main/java/ws/furrify/artists/artist/Artist.java:35-64 | Taking the snapshot of a restored snapshot gives back the same snapshot. |
| `Artists.RestoreRoundTrip` | FurrifyWS-Artists/artists-domain/src/main/java/ws/furrify/artists/artist/Artist.java:35-64 | Restoring an aggregate's own snapshot gives back the same aggregate. |
| `Artists.UpdateNicknames` | FurrifyWS-Artists/artists-domain/src/main/java/ws/furrify/artists/artist/Artist.java:66-113 | Both arguments null fails first. Otherwise a null argument keeps the current value. For each exception, the contract gives the exact condition under which it is thrown: the set is empty; the preferred nickname is not in the set; the preferred nickname changed and the repository reports it already preferred for the owner. Every failure leaves the aggregate unchanged. Success stores exactly the defaulted arguments and establishes the non-empty/preferred-is-member invariant. The ids and the creation date never change. |
| `Artists.UnchangedPreferredIgnoresLookup` | FurrifyWS-Artists/artists-domain/src/main/java/ws/furrify/artists/artist/Artist.java:99-109 | When the preferred nickname stays the same, the repository answer cannot affect the outcome, and the update never fails as "taken". |
| `Artists.UpdateIdempotent` | FurrifyWS-Artists/artists-domain/src/main/java/ws/furrify/artists/artist/Artist.java:66-113 | Repeating a successful update succeeds and leaves the aggregate as it is, whatever the repository answers the second time. |
| `Artists.ResubmitCurrentState` | FurrifyWS-Artists/artists-domain/src/main/java/ws/furrify/artists/artist/Artist.java:85-112 | Submitting a valid aggregate's own nicknames and preferred nickname succeeds without changing it. |
| `Artists.PreferredNicknameConflictAcrossArtists` | FurrifyWS-Artists/artists-domain/src/main/java/ws/furrify/artists/artist/Artist.java:99-109 | The owner already prefers "fox" on another artist. Switching this artist's preferred nickname to "fox" throws the already-exists error and leaves the artist unchanged. |
| `Artists.FoxVixScenario` | FurrifyWS-Artists/artists-domain/src/main/java/ws/furrify/artists/artist/Artist.java:74-112 | Start from {fox, vix} preferring fox. Switching to vix (not preferred elsewhere) succeeds. Clearing the nicknames then fails as invalid data and keeps vix and both nicknames. |
| `Attachments.From` | FurrifyWS-Posts/posts-app/src/main/java/ws/furrify/posts/attachment/AttachmentFactory.java:10-28 | Every field is copied. A present attachment id or creation date is kept. A missing one becomes the fresh UUID or the current time. |
| `Attachments.FromIgnoresGeneratorsWhenComplete` | FurrifyWS-Posts/posts-app/src/main/java/ws/furrify/posts/attachment/AttachmentFactory.java:13-24 | When the id and the date are both supplied, different generated values give equal snapshots. |
| `Attachments.FromDependsOnGeneratorsOnlyWhenMissing` | FurrifyWS-Posts/posts-app/src/main/java/ws/furrify/posts/attachment/AttachmentFactory.java:13-24 | Two calls can differ in attachment id only if the DTO had none and the fresh ids differ. Likewise for the creation date and the clock. |
| `Attachments.FromDtoOfRoundTrip` | FurrifyWS-Posts/posts-app/src/main/java/ws/furrify/posts/attachment/AttachmentFactory.java:10-25 | Every snapshot is rebuilt exactly from the DTO that carries its fields. |
| `Attachments.FromIdempotent` | FurrifyWS-Posts/posts-app/src/main/java/ws/furrify/posts/attachment/AttachmentFactory.java:10-25 | Building again from a built snapshot's fields changes nothing. |
| `JavaStrings.RegexSpaceIsJavaWhitespace` | FurrifyWS-Artists/artists-app/src/main/java/ws/furrify/artists/avatar/strategy/LocalStorageAvatarUploadStrategy.java:66 | Every character the regex `\s` matches is whitespace for `isBlank`. |
| `JavaStrings.CharEqualsIgnoreCaseIsLowerEquality` | FurrifyWS-Sources/sources-domain/src/main/java/ws/furrify/sources/source/strategy/DeviantArtV1SourceStrategy.java:74 | The per-character test of `equalsIgnoreCase` holds exactly when the lower-case forms agree. |
| `JavaStrings.IsJavaWhitespace` | FurrifyWS-Sources/sources-domain/src/main/java/ws/furrify/sources/source/strategy/DeviantArtV1SourceStrategy.java:58 | The characters `Character.isWhitespace` accepts: the Unicode space, line and paragraph separators except the three non-breaking ones, plus tab, line feed, vertical tab, form feed, carriage return and the four ASCII separators U+001C to U+001F. |
| `JavaStrings.IsRegexSpace` | FurrifyWS-Artists/artists-app/src/main/java/ws/furrify/artists/avatar/strategy/LocalStorageAvatarUploadStrategy.java:66 | The characters the regex `\s` matches: space, tab, line feed, vertical tab, form feed, carriage return. |
| `JavaStrings.IsBlank` | FurrifyWS-Sources/sources-domain/src/main/java/ws/furrify/sources/source/strategy/DeviantArtV1SourceStrategy.java:58 | `isBlank`: every character is whitespace, so the empty string is blank. |
| `JavaStrings.EqualsIgnoreCase` | FurrifyWS-Sources/sources-domain/src/main/java/ws/furrify/sources/source/strategy/DeviantArtV1SourceStrategy.java:74 | `equalsIgnoreCase`: the same length, and every position equal up to case. |
| `JavaStrings.Replace` | FurrifyWS-Sources/sources-domain/src/main/java/ws/furrify/sources/source/strategy/DeviantArtV1SourceStrategy.java:74 | `replace`: one left-to-right pass replacing non-overlapping occurrences of the target. `ReplaceWithoutOccurrence` (which gives the empty string back unchanged), `ReplaceLeadingOccurrence` and `ReplaceCopiesHead` together fix it on every input: a string is empty, or starts with the target, or has no occurrence beginning at its first character. |
| `JavaStrings.ReplaceWithoutOccurrence` | FurrifyWS-Sources/sources-domain/src/main/java/ws/furrify/sources/source/strategy/DeviantArtV1SourceStrategy.java:74 | `replace` leaves a string in which the target never occurs unchanged. |
| `JavaStrings.ReplaceLeadingOccurrence` | FurrifyWS-Sources/sources-domain/src/main/java/ws/furrify/sources/source/strategy/DeviantArtV1SourceStrategy.java:74 | A leading occurrence is replaced, and the rest is processed on its own. |
| `JavaStrings.ReplaceCopiesHead` | FurrifyWS-Sources/sources-domain/src/main/java/ws/furrify/sources/source/strategy/DeviantArtV1SourceStrategy.java:74 | A head in which no occurrence of the target begins is copied unchanged in front of the pass over the tail. This holds even when an occurrence begins right after the head. |
| `JavaStrings.LastIndexOf` | FurrifyWS-Artists/artists-app/src/main/java/ws/furrify/artists/avatar/strategy/LocalStorageAvatarUploadStrategy.java:79 | The index found holds the character, and no later position does. It is absent exactly when the character does not occur. |
| `JavaStrings.JavaLastIndexOf` | FurrifyWS-Artists/artists-app/src/main/java/ws/furrify/artists/avatar/strategy/LocalStorageAvatarUploadStrategy.java:79 | The result is -1 exactly when the character does not occur. Otherwise it is a position holding the character, and no later position holds it. |
| `JavaStrings.Substring` | FurrifyWS-Artists/artists-app/src/main/java/ws/furrify/artists/avatar/strategy/LocalStorageAvatarUploadStrategy.java:77-79 | It succeeds exactly when 0 <= begin <= end <= length, and then yields that slice. Otherwise it is the out-of-bounds exception. |
| `JavaStrings.RawSplit` | FurrifyWS-Sources/sources-domain/src/main/java/ws/furrify/sources/source/strategy/DeviantArtV1SourceStrategy.java:78 | There is one piece more than there are `/` or `\` separators, and no piece contains a separator. |
| `JavaStrings.RawSplitJoins` | FurrifyWS-Sources/sources-domain/src/main/java/ws/furrify/sources/source/strategy/DeviantArtV1SourceStrategy.java:78 | Joining the pieces with `/` gives back the input, with backslashes read as slashes. |
| `JavaStrings.RawSplitWithoutSeparator` | FurrifyWS-Sources/sources-domain/src/main/java/ws/furrify/sources/source/strategy/DeviantArtV1SourceStrategy.java:78 | A separator-free string is a single piece. |
| `JavaStrings.RawSplitFirstSegment` | FurrifyWS-Sources/sources-domain/src/main/java/ws/furrify/sources/source/strategy/DeviantArtV1SourceStrategy.java:78 | A separator-free head followed by a separator becomes the first piece, followed by the pieces of the rest. |
| `JavaStrings.DropTrailingEmpty` | FurrifyWS-Sources/sources-domain/src/main/java/ws/furrify/sources/source/strategy/DeviantArtV1SourceStrategy.java:78 | The result is a prefix of the input. It ends in a non-empty piece, or is empty. Everything it drops is empty. |
| `JavaStrings.SplitPath` | FurrifyWS-Sources/sources-domain/src/main/java/ws/furrify/sources/source/strategy/DeviantArtV1SourceStrategy.java:78 | With no separator the result is the input itself. Otherwise it is the raw pieces with exactly the trailing empty ones dropped: a prefix of the raw pieces, not ending in an empty piece, with only empty pieces after it. No segment contains a separator. |
| `JavaStrings.SplitThreeSegmentPath` | FurrifyWS-Sources/sources-domain/src/main/java/ws/furrify/sources/source/strategy/DeviantArtV1SourceStrategy.java:78-80 | `/a/b/c` with a non-empty last segment splits into `["", a, b, c]`: four segments, the third one `b`. |
| `JavaStrings.SplitOneSegmentPath` | FurrifyWS-Sources/sources-domain/src/main/java/ws/furrify/sources/source/strategy/DeviantArtV1SourceStrategy.java:130-139 | `/a` with non-empty `a` splits into `["", a]`, so the username is `a`. |
| `DeviantArtSource.CheckedUri` | FurrifyWS-Sources/sources-domain/src/main/java/ws/furrify/sources/source/strategy/DeviantArtV1SourceStrategy.java:58-76 | It succeeds exactly when the url is present and not blank, parses, has a host, and the host is accepted. It then yields the parsed URI. It fails with the "required" message exactly when the url is missing or blank, and with the "invalid" message otherwise. |
| `DeviantArtSource.UrlMissing` | FurrifyWS-Sources/sources-domain/src/main/java/ws/furrify/sources/source/strategy/DeviantArtV1SourceStrategy.java:58 | The url entry is absent or blank, the condition of the "required" message. |
| `DeviantArtSource.HostAccepted` | FurrifyWS-Sources/sources-domain/src/main/java/ws/furrify/sources/source/strategy/DeviantArtV1SourceStrategy.java:74 | The host check: every `www.` is removed, and the rest equals `deviantart.com` ignoring case. |
| `DeviantArtSource.DeviationPath` | FurrifyWS-Sources/sources-domain/src/main/java/ws/furrify/sources/source/strategy/DeviantArtV1SourceStrategy.java:58-82 | It succeeds exactly when the URI check passes and the path has at least four segments with "art" third, and then yields the path. A missing or blank url fails with the deviation "required" message. Every other failure is the "invalid" message. |
| `DeviantArtSource.UsernameOf` | FurrifyWS-Sources/sources-domain/src/main/java/ws/furrify/sources/source/strategy/DeviantArtV1SourceStrategy.java:110-139 | It succeeds exactly when the URI check passes and the path has at least two segments. The username is then the second segment. A missing or blank url fails with the user "required" message. Every other failure is the "invalid" message. |
| `DeviantArtSource.Bearer` | FurrifyWS-Sources/sources-domain/src/main/java/ws/furrify/sources/source/strategy/DeviantArtV1SourceStrategy.java:94 | The header value both lookups send (line 136 builds the same value): `Bearer ` followed by exactly the identity provider's token for the `deviantart` broker. |
| `DeviantArtSource.ValidateMedia` | FurrifyWS-Sources/sources-domain/src/main/java/ws/furrify/sources/source/strategy/DeviantArtV1SourceStrategy.java:57-106 | Valid exactly when the shape checks pass, the scraper finds an id for `https://deviantart.com` + path, and the API finds that deviation. A valid result adds exactly the `deviation_id` key, holding the scraped id, and keeps every other entry. Shape failures pass their message through. Once the shape checks pass, every failure is "Deviation not found.". |
| `DeviantArtSource.ValidateUser` | FurrifyWS-Sources/sources-domain/src/main/java/ws/furrify/sources/source/strategy/DeviantArtV1SourceStrategy.java:109-148 | Valid exactly when the shape checks pass and the API returns a user for the username. A valid result adds exactly `user_id` and `username` from that user and keeps every other entry. Shape failures pass their message through. Once the shape checks pass, the only failure is "User not found.". |
| `DeviantArtSource.ValidateAttachment` | FurrifyWS-Sources/sources-domain/src/main/java/ws/furrify/sources/source/strategy/DeviantArtV1SourceStrategy.java:151-153 | It gives the same verdict as media validation. A valid attachment URL has the deviation shape and gains `deviation_id`. |
| `DeviantArtSource.MediaShapeFailureIgnoresServices` | FurrifyWS-Sources/sources-domain/src/main/java/ws/furrify/sources/source/strategy/DeviantArtV1SourceStrategy.java:57-92 | When the shape check fails, the scraper, the token and the API are never consulted: any two sets of them give the same result. |
| `DeviantArtSource.UserShapeFailureIgnoresServices` | FurrifyWS-Sources/sources-domain/src/main/java/ws/furrify/sources/source/strategy/DeviantArtV1SourceStrategy.java:109-136 | The same holds for user URLs: on a failed shape check the token and the API do not matter. |
| `DeviantArtSource.ScraperSeesCanonicalUrl` | FurrifyWS-Sources/sources-domain/src/main/java/ws/furrify/sources/source/strategy/DeviantArtV1SourceStrategy.java:86-92 | The scraper's answer matters only on the canonical URL `https://deviantart.com` + path, whatever host spelling the data used. |
| `DeviantArtSource.NoWwwInHost` | FurrifyWS-Sources/sources-domain/src/main/java/ws/furrify/sources/source/strategy/DeviantArtV1SourceStrategy.java:74 | A host without the letter `w` is unchanged by removing `www.`. |
| `DeviantArtSource.DomainAcceptedInAnyCase` | FurrifyWS-Sources/sources-domain/src/main/java/ws/furrify/sources/source/strategy/DeviantArtV1SourceStrategy.java:74 | Every letter-case spelling of `deviantart.com` is accepted. |
| `DeviantArtSource.WwwPrefixIgnored` | FurrifyWS-Sources/sources-domain/src/main/java/ws/furrify/sources/source/strategy/DeviantArtV1SourceStrategy.java:74 | A leading `www.` never changes the verdict on a host. |
| `DeviantArtSource.UpperCaseWwwRefused` | FurrifyWS-Sources/sources-domain/src/main/java/ws/furrify/sources/source/strategy/DeviantArtV1SourceStrategy.java:74 | The removal is case-sensitive, so `WWW.deviantart.com` is refused. |
| `DeviantArtSource.WwwAnywhereAccepted` | FurrifyWS-Sources/sources-domain/src/main/java/ws/furrify/sources/source/strategy/DeviantArtV1SourceStrategy.java:74 | `www.` inserted at any position of `deviantart.com` is accepted. This includes `www.deviantart.com` and `deviantart.www.com`. |
| `DeviantArtSource.ReplaceInnerWww` | FurrifyWS-Sources/sources-domain/src/main/java/ws/furrify/sources/source/strategy/DeviantArtV1SourceStrategy.java:74 | `www.` between two parts without `w` is removed, and only it. |
| `DeviantArtSource.ReplacePrefixWithoutW` | FurrifyWS-Sources/sources-domain/src/main/java/ws/furrify/sources/source/strategy/DeviantArtV1SourceStrategy.java:74 | A prefix without `w` passes through the removal unchanged. |
| `DeviantArtSource.DeviationUrlExample` | FurrifyWS-Sources/sources-domain/src/main/java/ws/furrify/sources/source/strategy/DeviantArtV1SourceStrategy.java:64-82 | A URL on `www.deviantart.com` with path `/<artist>/art/<title>` passes the shape checks. The path is what reaches the scraper. |
| `DeviantArtSource.UserUrlExample` | FurrifyWS-Sources/sources-domain/src/main/java/ws/furrify/sources/source/strategy/DeviantArtV1SourceStrategy.java:116-139 | A URL on `deviantart.com` with path `/<name>` yields the username `<name>`. |
| `DeviantArtSource.GalleryPathRefused` | FurrifyWS-Sources/sources-domain/src/main/java/ws/furrify/sources/source/strategy/DeviantArtV1SourceStrategy.java:78-82 | `/<artist>/gallery/<title>` is refused as an invalid deviation URL. |
| `DeviantArtSource.GallerySegments` | FurrifyWS-Sources/sources-domain/src/main/java/ws/furrify/sources/source/strategy/DeviantArtV1SourceStrategy.java:78 | `/<artist>/gallery/<title>` splits into four segments, the third being `gallery`. |
| `AvatarNaming.SkipSpaces` | FurrifyWS-Artists/artists-app/src/main/java/ws/furrify/artists/avatar/strategy/LocalStorageAvatarUploadStrategy.java:66 | Every character it drops is `\s`, and what it returns does not start with one. |
| `AvatarNaming.SkipSpacesIsSuffix` | FurrifyWS-Artists/artists-app/src/main/java/ws/furrify/artists/avatar/strategy/LocalStorageAvatarUploadStrategy.java:66 | What `SkipSpaces` returns is the rest of the input after the leading run. |
| `AvatarNaming.SkipSpacesRun` | FurrifyWS-Artists/artists-app/src/main/java/ws/furrify/artists/avatar/strategy/LocalStorageAvatarUploadStrategy.java:66 | A run of `\s` in front of a part that does not start with one is skipped entirely. |
| `AvatarNaming.KeptMembership` | FurrifyWS-Artists/artists-app/src/main/java/ws/furrify/artists/avatar/strategy/LocalStorageAvatarUploadStrategy.java:66 | The non-space, non-underscore projection keeps exactly the characters of the input that are neither `\s` nor `_`. |
| `AvatarNaming.SkipSpacesInvisible` | FurrifyWS-Artists/artists-app/src/main/java/ws/furrify/artists/avatar/strategy/LocalStorageAvatarUploadStrategy.java:66 | A skipped run changes neither that projection nor the underscore count. |
| `AvatarNaming.SanitizeFilename` | FurrifyWS-Artists/artists-app/src/main/java/ws/furrify/artists/avatar/strategy/LocalStorageAvatarUploadStrategy.java:66 | The sanitised filename contains no `\s` character. |
| `AvatarNaming.SanitizeKeepsText` | FurrifyWS-Artists/artists-app/src/main/java/ws/furrify/artists/avatar/strategy/LocalStorageAvatarUploadStrategy.java:66 | Sanitising keeps every other character in order. It adds exactly one underscore per maximal run of `\s`. |
| `AvatarNaming.SanitizeKeepsDots` | FurrifyWS-Artists/artists-app/src/main/java/ws/furrify/artists/avatar/strategy/LocalStorageAvatarUploadStrategy.java:66-79 | The sanitised name has a dot exactly when the original does, so the extension check sees the original's dots. |
| `AvatarNaming.SanitizeWithoutSpaces` | FurrifyWS-Artists/artists-app/src/main/java/ws/furrify/artists/avatar/strategy/LocalStorageAvatarUploadStrategy.java:66 | A name without `\s` is kept as it is. |
| `AvatarNaming.SanitizeSingleSpace` | FurrifyWS-Artists/artists-app/src/main/java/ws/furrify/artists/avatar/strategy/LocalStorageAvatarUploadStrategy.java:66 | One space between two space-free words becomes one underscore. |
| `AvatarNaming.SanitizeLeadingSpace` | FurrifyWS-Artists/artists-app/src/main/java/ws/furrify/artists/avatar/strategy/LocalStorageAvatarUploadStrategy.java:66 | A single leading space before a space-free word becomes an underscore. |
| `AvatarNaming.SanitizeLeadingRun` | FurrifyWS-Artists/artists-app/src/main/java/ws/furrify/artists/avatar/strategy/LocalStorageAvatarUploadStrategy.java:66 | A whole maximal run of `\s` at the start becomes one underscore in front of the sanitised rest. Together with `SanitizeWithoutSpaces` (which gives the empty name back unchanged) and `SanitizeAppend`, this fixes the result on every input. |
| `AvatarNaming.SanitizeAppend` | FurrifyWS-Artists/artists-app/src/main/java/ws/furrify/artists/avatar/strategy/LocalStorageAvatarUploadStrategy.java:66 | A space-free head is copied unchanged in front of the sanitised rest. |
| `AvatarNaming.ThumbnailFilename` | FurrifyWS-Artists/artists-app/src/main/java/ws/furrify/artists/avatar/strategy/LocalStorageAvatarUploadStrategy.java:76-80 | It fails, as the out-of-bounds exception, exactly when the name has no dot. Otherwise it is the prefix, the part before the last dot, and `.jpg`. |
| `AvatarNaming.ThumbnailOfExtension` | FurrifyWS-Artists/artists-app/src/main/java/ws/furrify/artists/avatar/strategy/LocalStorageAvatarUploadStrategy.java:76-80 | `<stem>.<ext>` with a dot-free extension gives `<prefix><stem>.jpg`, even when the stem has dots. |
| `AvatarNaming.ThumbnailShape` | FurrifyWS-Artists/artists-app/src/main/java/ws/furrify/artists/avatar/strategy/LocalStorageAvatarUploadStrategy.java:76-80 | Every thumbnail name starts with the prefix and ends with `.jpg`. |
| `AvatarNaming.Format` | FurrifyWS-Artists/artists-app/src/main/java/ws/furrify/artists/avatar/strategy/LocalStorageAvatarUploadStrategy.java:69-70 | A template without a brace is returned as it is. |
| `AvatarNaming.FormatLiteralPrefix` | FurrifyWS-Artists/artists-app/src/main/java/ws/furrify/artists/avatar/strategy/LocalStorageAvatarUploadStrategy.java:69-70 | Brace-free literal text is copied through ahead of the formatted rest. |
| `AvatarNaming.FormatElement` | FurrifyWS-Artists/artists-app/src/main/java/ws/furrify/artists/avatar/strategy/LocalStorageAvatarUploadStrategy.java:69-70 | A leading `{0}` or `{1}` is replaced by its argument. |
| `AvatarNaming.FormatTwoElements` | FurrifyWS-Artists/artists-app/src/main/java/ws/furrify/artists/avatar/strategy/LocalStorageAvatarUploadStrategy.java:69-70 | `<head>{0}<middle>{1}` gives head, artist id, middle, avatar id, in that order. |
| `AvatarNaming.UploadNames` | FurrifyWS-Artists/artists-app/src/main/java/ws/furrify/artists/avatar/strategy/LocalStorageAvatarUploadStrategy.java:61-104 | A null filename fails first. The filename fails with the out-of-bounds exception exactly when the original has no dot. With a dot, the call fails as corrupted content exactly when the URI check rejects the avatar URI or the thumbnail URI, and succeeds exactly when it accepts both. Success places the sanitised name and the thumbnail name under the formatted local directory (files) and remote directory (URIs). |
| `AvatarNaming.UrisNameTheLocalFiles` | FurrifyWS-Artists/artists-app/src/main/java/ws/furrify/artists/avatar/strategy/LocalStorageAvatarUploadStrategy.java:73-101 | Each returned URI ends with the same name as the file written locally. The thumbnail name carries the prefix and ends in `.jpg`. |
| `AvatarNamingDefaults.DefaultStoragePaths` | FurrifyWS-Artists/artists-app/src/main/java/ws/furrify/artists/avatar/strategy/LocalStorageAvatarUploadStrategy.java:31-35 | The default templates give `/data/artist/<artistId>/avatar/<avatarId>` and `/artist/<artistId>/avatar/<avatarId>`. |
| `AvatarNamingDefaults.SanitizeTwoWordName` | FurrifyWS-Artists/artists-app/src/main/java/ws/furrify/artists/avatar/strategy/LocalStorageAvatarUploadStrategy.java:66 | `<first> <second>.<ext>` sanitises to `<first>_<second>.<ext>`. |
| `AvatarNamingDefaults.UploadOfSanitizedName` | FurrifyWS-Artists/artists-app/src/main/java/ws/furrify/artists/avatar/strategy/LocalStorageAvatarUploadStrategy.java:61-101 | Under any settings, with a URI check that accepts every string, a name that sanitises to `<stem>.<ext>` is stored under that name, with thumbnail `<prefix><stem>.jpg`, in both directories. |
| `AvatarNamingDefaults.DefaultUploadExample` | FurrifyWS-Artists/artists-app/src/main/java/ws/furrify/artists/avatar/strategy/LocalStorageAvatarUploadStrategy.java:31-101 | With the default settings and a URI check that accepts every string, `my avatar.png`-style names are stored as `my_avatar.png`, with thumbnail `thumbnail_my_avatar.jpg`, under the artist's and avatar's directories. |

## Left out

- I/O in the avatar upload is not modelled:
  - thumbnail rendering, and the `THUMBNAIL_WIDTH` and `THUMBNAIL_QUALITY` settings;
  - reading the upload's streams;
  - `mkdirs`/`exists`, including the second check's use of the avatar file's parent directory;
  - the "cannot create path" failure;
  - writing the files.

  These are side effects on a file system the model does not have.
- AvatarNaming.UploadNames: an `IOException` from reading or rendering the upload, which the source turns into the corrupted-content failure, is not modelled. The same goes for the ordering that lets it happen before the null-filename check. It belongs to the I/O left out above.
- AvatarNaming.Format: only the `{0}` and `{1}` elements of `MessageFormat` are modelled. Quoting with `'`, other argument indices and format styles are not. The configured templates use none of them.
- Java `null` inside maps, sets and nickname objects is not modelled. Only these nullable arguments and fields are `Option`s: the update arguments, the artist's and its snapshot's row id and creation date, the DTO's row id, attachment id and creation date, the attachment snapshot's row id, the URI's host, the filename, and the answers of the URI parser, the scraper and the user lookup. Every other field is a non-null value. A null value stored under a key has no counterpart.
- Artists.Restore: Lombok's `@NonNull` on `artistId`, `ownerId`, `nicknames` and `preferredNickname` makes the constructor throw `NullPointerException` for a snapshot with any of them null. This path is not modelled, because those fields cannot be null here.
- Artists.UpdateNicknames: the `NullPointerException` Lombok throws for a null repository, before the both-null check, is not modelled. The repository is a total predicate here.
- Attachments.From: the source copies a null post id, owner id, filename, md5, extension or file URL through as null. The model has no null for these fields.
- DeviantArtSource.ValidateMedia: the source writes `deviation_id` into the caller's own map and returns that same object. The model returns an updated copy, so the change being visible through the caller's reference is not modelled.
- DeviantArtSource.ValidateUser: likewise, `user_id` and `username` are written into the caller's own map. The model returns an updated copy.
- Artists.UpdateNicknames: the source stores the caller's set object itself, so later changes by the caller would show through. The model stores the set's value.
- `UUID.randomUUID()` and `ZonedDateTime.now()` are not modelled; they are parameters of `Attachments.From`. UUIDs and timestamps are opaque values.
- `Attachment.restore` is not part of this model: `Attachments.From` returns the snapshot handed to it. The transfer object's other fields, such as its sources, are not read by the factory and are not modelled.
- The remote collaborators are parameters: the Keycloak identity-provider token (a function of the broker id; the realm is fixed), the DeviantArt API client and the deviation scraper. Their internals and failures other than "not found" are not modelled.
- `java.net.URI` parsing and its syntax rules are not modelled; they are parameters (`parseUri`, `isValidUri`).
- JavaStrings.EqualsIgnoreCase: case mapping is limited to ASCII letters; Java also maps other alphabets. Hosts reaching this check are ASCII.
- The artist repository is a predicate. The persistence and query layers, the controllers, the event listeners and the event pipeline between services are not modelled. They are infrastructure around the core, with no logic of its own here.
