# Dotnet SDK 10 validation callback

This project models `DotnetSdkValidators.CreateDotnet10ValidationCallback` from the
Aspire hosting library. The method builds a callback that the command-validation
framework calls before it runs a command that needs the dotnet SDK. The callback works
in four steps:

1. It picks a directory: the project directory when one was given, otherwise the current
   working directory.
2. It looks up the SDK version for that directory.
3. If no version is found, it reports success. This is fail-open: the runtime reports the
   real problem later.
4. If a version is found and its major component is below 10, it reports a failure with
   the message `Dotnet SDK 10 or later is required{ in '<dir>'}. Detected version: <version>.`
   Otherwise it reports success. The directory clause appears only when a project
   directory was given explicitly.

The model is one Dafny module, `DotnetSdkValidators`, made of pure functions and lemmas.
This matches the source: the callback is a stateless closure, with no fields and no loops.
The callback's outside dependencies are parameters, so every part of the model is total:

- `tryGetVersion: string -> Option<Version>` is the SDK version lookup for a directory.
- `cwd: string` is the current working directory.
- `show: Version -> string` is how a version is written into the message.
- The validation context is a type parameter `C`. The callback never reads it.

## Model

| member | source | states |
|---|---|---|
| `DotnetSdkValidators.ResolveDir` | src/Aspire.Hosting/DotnetSdkValidators.cs:20 | The looked-up directory is the project directory when one is given, and the current working directory when none is given. |
| `DotnetSdkValidators.DirectoryClause` | src/Aspire.Hosting/DotnetSdkValidators.cs:31 | The clause is empty exactly when no project directory was given. With directory d it is ` in '` followed by d followed by `'`, and nothing else. |
| `DotnetSdkValidators.FailureMessage` | src/Aspire.Hosting/DotnetSdkValidators.cs:31-32 | The message starts with "Dotnet SDK 10 or later is required". Right after that comes the directory clause (empty without a directory, ` in '<d>'` with one). It ends with ". Detected version: " + versionText + ".". Its length is exactly the sum of these parts, so nothing else is in it. |
| `DotnetSdkValidators.Decide` | src/Aspire.Hosting/DotnetSdkValidators.cs:23-35 | An unknown version gives Success whatever the directory. Success holds exactly when the version is unknown or its major is at least 10. A failure happens only for a known version, and it carries the failure message for that directory and version text. |
| `DotnetSdkValidators.Dotnet10ValidationCallback` | src/Aspire.Hosting/DotnetSdkValidators.cs:16-37 | The whole callback is judged on the version that the lookup returns for the resolved directory. It succeeds exactly when that version is unknown or has major >= 10. Otherwise it fails with the failure message built from that version's text. |
| `DotnetSdkValidators.ThresholdBoundary` | src/Aspire.Hosting/DotnetSdkValidators.cs:29-35 | The threshold sits exactly at 10: major 9 fails and major 10 succeeds, whatever the minor, patch and directory. |
| `DotnetSdkValidators.AcceptanceMonotone` | src/Aspire.Hosting/DotnetSdkValidators.cs:29 | If a version passes, every version with the same or a higher major also passes. |
| `DotnetSdkValidators.CallbackIgnoresContext` | src/Aspire.Hosting/DotnetSdkValidators.cs:18-36 | For the same lookup and the same working directory, any two validation contexts give the same result. |
| `DotnetSdkValidators.CallbackLooksUpResolvedDir` | src/Aspire.Hosting/DotnetSdkValidators.cs:20-21 | The version lookup is consulted only at the resolved directory. Two lookups that agree there give the same result. |
| `DotnetSdkValidators.CallbackIgnoresCwdWhenDirectoryGiven` | src/Aspire.Hosting/DotnetSdkValidators.cs:20 | When a project directory is given, the callback does not read the current working directory (line 20's `??` short-circuits), and the lookup receives the directory as given. |
| `DotnetSdkValidators.MessageWithoutDirectory` | src/Aspire.Hosting/DotnetSdkValidators.cs:31-32 | Without a project directory, the message is exactly "Dotnet SDK 10 or later is required. Detected version: " + versionText + ".". |
| `DotnetSdkValidators.MessageWithDirectory` | src/Aspire.Hosting/DotnetSdkValidators.cs:31-32 | With project directory d, the message begins "Dotnet SDK 10 or later is required in '" + d + "'". |
| `DotnetSdkValidators.DirectoryClauseVisible` | src/Aspire.Hosting/DotnetSdkValidators.cs:31-32 | A message with a directory clause never equals a message without one, whatever the version texts. |
| `DotnetSdkValidators.MessageDeterminesVersionText` | src/Aspire.Hosting/DotnetSdkValidators.cs:32 | For the same directory choice, equal messages mean equal detected-version texts. |
| `DotnetSdkValidators.MessageDeterminesDirectory` | src/Aspire.Hosting/DotnetSdkValidators.cs:31-32 | For the same version text, equal messages mean equal project directories. |
| `DotnetSdkValidators.MessageAmbiguousInBothArguments` | src/Aspire.Hosting/DotnetSdkValidators.cs:31-32 | The two lemmas above do not combine into a joint injectivity result. A directory containing `'. Detected version: ` makes two different (directory, version text) pairs produce the same message. |

## Left out

- The SDK version lookup (`DotnetSdkUtils.TryGetVersionAsync`, line 21) is not part of this model. It is the parameter `tryGetVersion`, which may return no version.
- The current working directory (`Directory.GetCurrentDirectory()`, line 20) is process state. It is the parameter `cwd`.
- `tryGetVersion` depends only on its directory argument. The real lookup resolves a relative directory against the process working directory, and the model does not capture that. So with a relative project directory, the real result can still depend on the working directory, which `CallbackIgnoresCwdWhenDirectoryGiven` does not rule out.
- Each call of the callback makes a fresh lookup in the source, and two lookups can answer differently (the installed SDK can change between them). The model fixes one lookup per call, so equalities between calls such as `CallbackIgnoresContext` hold only for the same lookup and working directory.
- How a version is turned into text (its `ToString`, used in the message at line 32) is library behaviour. It is the parameter `show`, and the message lemmas are stated over any version text.
- Exceptions are not modelled. In the source, `Directory.GetCurrentDirectory()` (line 20) can throw, and so can the awaited lookup (line 21). Lines 18-36 catch nothing, so such an exception faults the returned task, which then yields neither Success nor Failure. The model treats both outside calls as total, so `Dotnet10ValidationCallback` always returns a result.
- The `async`/`Task`/`ConfigureAwait` machinery is left out. The model is a synchronous function of the lookup's answer.
- The factory that returns a closure is modelled as the closure's body, which takes the captured `projectDirectory` as a parameter. The framework's context and result types are left out, apart from a two-case result and an unused context parameter.
- The `#pragma` diagnostic suppression has no behaviour to model.
- Version components are `nat`, because SDK version numbers are never negative. Only `major` takes part in the decision.
