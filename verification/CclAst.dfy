// The two ends of CCL code generation: the rule tree that the front end lowers to
// (icn-ccl-dsl) and the flat opcode stream that the WASM back end consumes.
module CclAst {
  import opened Wrappers

  // A double as far as the compiler can tell two of them apart; it only prints them.
  datatype Float = Float(bits: nat)

  datatype Rule = Rule(key: string, value: RuleValue)

  datatype RuleValue =
    | String(text: string)
    | Number(number: Float)
    | Boolean(flag: bool)
    | List(items: seq<RuleValue>)
    | Map(entries: seq<Rule>)
    | Range(range: RangeRule)
    | If(expr: IfExpr)

  datatype RangeRule = RangeRule(start: Float, end: Float, rules: seq<Rule>)

  datatype IfExpr = IfExpr(conditionRaw: string, thenRules: seq<Rule>, elseRules: ElseRules)

  datatype ElseRules = NoElse | Else(rules: seq<Rule>)

  datatype ResourceType = Cpu | Memory | Io | Token

  datatype ActionStep =
    | Metered(resourceType: string, amount: nat, to: Option<string>, data: Option<seq<Rule>>)
    | Anchor(dataReference: string, path: Option<string>)
    | PerformMeteredAction(ident: string, resource: ResourceType, units: nat)
    | TransferToken(tokenType: string, quantity: nat, sender: string, recipient: string)

  // Vote, Anchor and MeteredAction modules are all handled by the generator's
  // catch-all arm, which only prints them; `debug` is that printed form.
  datatype DslModule =
    | Proposal(title: string, version: string, rules: seq<Rule>)
    | ActionHandler(event: string, steps: seq<ActionStep>)
    | Section(kind: string, heading: Option<string>, rules: seq<Rule>)
    | Role(name: string, description: Option<string>, attributes: seq<Rule>)
    | Unhandled(debug: string)

  datatype Opcode =
    | OpCreateProposal(title: string, version: Option<string>)
    | OpOnEvent(event: string)
    | OpMintToken(resType: string, amount: nat, to: Option<string>, data: Option<string>)
    | OpAnchorData(path: Option<string>, dataRef: string)
    | OpUseResource(resourceType: string, amount: nat)
    | OpTransferToken(tokenType: string, amount: nat, sender: Option<string>, recipient: string)
    | OpSubmitJob(params: JobParams)
    | OpCallHost(fnName: string, argsPayload: string)
    | OpIf(condition: string)
    | OpElse
    | OpEndIf
    | OpRangeCheck(start: Float, end: Float)
    | OpBeginSection(kind: string, heading: Option<string>)
    | OpEndSection
    | OpSetProperty(key: string, valueJson: string)
    | OpTodo(message: string)

  // The fields of a job submission; the back end only ever serializes them together.
  datatype JobParams = JobParams(
    wasmCid: string,
    description: Option<string>,
    inputDataCid: Option<string>,
    requiredResourcesJson: Option<string>,
    qosProfileJson: Option<string>,
    maxAcceptableBidTokens: Option<nat>,
    deadlineUtcMs: Option<nat>)

  // The text formatting the compiler borrows from its libraries: JSON serialization
  // of a value and the decimal form of a double.
  datatype Text = Text(json: RuleValue -> string, display: Float -> string)

  // Decimal text identifies the double and never contains an underscore.
  ghost predicate FaithfulDisplay(display: Float -> string) {
    && (forall x, y :: display(x) == display(y) ==> x == y)
    && (forall x :: '_' !in display(x))
  }
}
