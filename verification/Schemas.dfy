/** The descriptors of the server's messages: field k of each list has number k + 1. */
module Schemas {
  import opened Wire
  import opened Codec
  import opened Serialize
  import opened Leaves
  import opened Packets

  // cid, type, expiry, topic_id / forum_id, sign, v, platform, device_id, authorization, data
  const REPLY_REQUEST: Schema := Schema([FBytes, FBytes, FInt64, FBytes, FBytes, FBytes, FBytes, FBytes, FBytes, FBytes], 0)
  const POST_TOPIC_REQUEST: Schema := Schema([FBytes, FBytes, FInt64, FBytes, FBytes, FBytes, FBytes, FBytes, FBytes, FBytes], 0)
  // cid, type, data
  const REPLY_RESPONSE: Schema := Schema([FBytes, FBytes, FBytes], 0)
  const POST_TOPIC_RESPONSE: Schema := Schema([FBytes, FBytes, FBytes], 0)
  // cid, service_id, data
  const PUBLIC_SERVICE_REQUEST: Schema := Schema([FBytes, FBytes, FBytes], 0)
  // cid, service_id, data, time
  const PUBLIC_SERVICE_RESPONSE: Schema := Schema([FBytes, FBytes, FBytes, FInt64], 0)
  // cid, lat, long, start, limit, max_distance
  const GROUP_LBS_NEAR_REQUEST: Schema := Schema([FBytes, FDouble, FDouble, FInt32, FInt32, FInt32], 0)
  // cid, status, data
  const GROUP_LBS_NEAR_RESPONSE: Schema := Schema([FBytes, FInt32, FBytes], 0)
  // cid, city, start, limit
  const GROUP_CITY_REQUEST: Schema := Schema([FBytes, FBytes, FInt32, FInt32], 0)
  // cid, status, data
  const GROUP_CITY_RESPONSE: Schema := Schema([FBytes, FInt32, FBytes], 0)
  // cid, json_request, module_name, function_name
  const PYTHON_CORE_REQUEST: Schema := Schema([FBytes, FBytes, FBytes, FBytes], 0)
  // cid, json_response, status
  const PYTHON_CORE_RESPONSE: Schema := Schema([FBytes, FBytes, FInt32], 0)

  // sessid, service_type, sn, payload
  const SERVICE_REQUEST: Schema := Schema([FBytes, FInt32, FBytes, FBytes], 3)
  // sessid, service_type, sn, status, payload
  const SERVICE_RESPONSE: Schema := Schema([FBytes, FInt32, FBytes, FInt32, FBytes], 4)

  // type, then the twelve sub-messages
  const SERVICE_PACKET: Schema :=
    Schema([FInt32,
            FMessage(REPLY_REQUEST), FMessage(REPLY_RESPONSE),
            FMessage(POST_TOPIC_REQUEST), FMessage(POST_TOPIC_RESPONSE),
            FMessage(PUBLIC_SERVICE_REQUEST), FMessage(PUBLIC_SERVICE_RESPONSE),
            FMessage(GROUP_LBS_NEAR_REQUEST), FMessage(GROUP_LBS_NEAR_RESPONSE),
            FMessage(GROUP_CITY_REQUEST), FMessage(GROUP_CITY_RESPONSE),
            FMessage(PYTHON_CORE_REQUEST), FMessage(PYTHON_CORE_RESPONSE)], 1)

  /** Field indices of the packet's sub-messages. */
  const REPLY_REQUEST_FIELD: nat := 1
  const REPLY_RESPONSE_FIELD: nat := 2
  const POST_TOPIC_REQUEST_FIELD: nat := 3
  const POST_TOPIC_RESPONSE_FIELD: nat := 4
  const PUBLIC_SERVICE_REQUEST_FIELD: nat := 5
  const PUBLIC_SERVICE_RESPONSE_FIELD: nat := 6
  const GROUP_LBS_NEAR_REQUEST_FIELD: nat := 7
  const GROUP_LBS_NEAR_RESPONSE_FIELD: nat := 8
  const GROUP_CITY_REQUEST_FIELD: nat := 9
  const GROUP_CITY_RESPONSE_FIELD: nat := 10
  const PYTHON_CORE_REQUEST_FIELD: nat := 11
  const PYTHON_CORE_RESPONSE_FIELD: nat := 12

  lemma BodiesFit()
    ensures LeafSchema(REPLY_REQUEST) && LeafSchema(REPLY_RESPONSE)
    ensures LeafSchema(POST_TOPIC_REQUEST) && LeafSchema(POST_TOPIC_RESPONSE)
    ensures LeafSchema(PUBLIC_SERVICE_REQUEST) && LeafSchema(PUBLIC_SERVICE_RESPONSE)
  {
  }

  lemma GroupBodiesFit()
    ensures LeafSchema(GROUP_LBS_NEAR_REQUEST) && LeafSchema(GROUP_LBS_NEAR_RESPONSE)
    ensures LeafSchema(GROUP_CITY_REQUEST) && LeafSchema(GROUP_CITY_RESPONSE)
    ensures LeafSchema(PYTHON_CORE_REQUEST) && LeafSchema(PYTHON_CORE_RESPONSE)
  {
  }

  /** The descriptors are of the shapes that the two classes are for. */
  lemma SchemasFit()
    ensures PacketSchema(SERVICE_PACKET) && |SERVICE_PACKET.fields| == 13 && SERVICE_PACKET.required == 1
    ensures LeafSchema(SERVICE_REQUEST) && LeafSchema(SERVICE_RESPONSE)
  {
    hide LeafSchema;
    BodiesFit();
    GroupBodiesFit();
    EnvelopesFit();
    assert forall sub | LeafSchema(sub) :: ValidSchema(sub) by { LeavesValid(); }
  }

  lemma EnvelopesFit()
    ensures LeafSchema(SERVICE_REQUEST) && LeafSchema(SERVICE_RESPONSE)
  {
  }

  lemma LeavesValid()
    ensures forall sub | LeafSchema(sub) :: ValidSchema(sub)
  {
  }

  /** Where each sub-message is: a request, followed by its response. */
  lemma PacketFields()
    ensures forall k: nat | 1 <= k <= 12 :: IsBody(SERVICE_PACKET, k)
    ensures |SERVICE_PACKET.fields| == 13 && SERVICE_PACKET.fields[0] == FInt32 && SERVICE_PACKET.required == 1
    ensures SERVICE_PACKET.fields[1] == FMessage(REPLY_REQUEST) && SERVICE_PACKET.fields[2] == FMessage(REPLY_RESPONSE)
    ensures SERVICE_PACKET.fields[3] == FMessage(POST_TOPIC_REQUEST) && SERVICE_PACKET.fields[4] == FMessage(POST_TOPIC_RESPONSE)
    ensures SERVICE_PACKET.fields[5] == FMessage(PUBLIC_SERVICE_REQUEST) && SERVICE_PACKET.fields[6] == FMessage(PUBLIC_SERVICE_RESPONSE)
    ensures SERVICE_PACKET.fields[7] == FMessage(GROUP_LBS_NEAR_REQUEST) && SERVICE_PACKET.fields[8] == FMessage(GROUP_LBS_NEAR_RESPONSE)
    ensures SERVICE_PACKET.fields[9] == FMessage(GROUP_CITY_REQUEST) && SERVICE_PACKET.fields[10] == FMessage(GROUP_CITY_RESPONSE)
    ensures SERVICE_PACKET.fields[11] == FMessage(PYTHON_CORE_REQUEST) && SERVICE_PACKET.fields[12] == FMessage(PYTHON_CORE_RESPONSE)
  {
    hide PacketSchema, LeafSchema, ValidSchema;
    SchemasFit();
  }

  // ----- The tags of the messages -----

  /** Whatever a message of this descriptor holds, its field k is written with tag number k of the list. */
  ghost predicate Tagged(sch: Schema, tags: seq<nat>) {
    && |tags| == |sch.fields|
    && forall m: Message, k: nat | WellFormed(sch, m) && k < |sch.fields| && m.fields[k].Some? ::
         StartsWith(FieldBytes(sch, m, k), tags[k])
  }

  predicate StartsWith(s: Bytes, b: nat) {
    s != [] && s[0] == b
  }

  lemma TaggedBy(sch: Schema, tags: seq<nat>)
    requires ValidSchema(sch) && |tags| == |sch.fields|
    requires forall k | 0 <= k < |tags| ::
               tags[k] == 8 * k + match sch.fields[k] { case FInt32 => 8 case FInt64 => 8 case FDouble => 9 case _ => 10 }
    ensures Tagged(sch, tags)
  {
    hide FieldBytes, ValidSchema;
    forall m: Message, k: nat | WellFormed(sch, m) && k < |sch.fields| && m.fields[k].Some?
      ensures StartsWith(FieldBytes(sch, m, k), tags[k])
    {
      FieldLayout(sch, m, k);
    }
  }

  /** The tags that the generated parsers expect in turn, and the one before them. */
  lemma TopicTags()
    ensures Tagged(REPLY_REQUEST, [10, 18, 24, 34, 42, 50, 58, 66, 74, 82]) && Tagged(REPLY_RESPONSE, [10, 18, 26])
    ensures Tagged(POST_TOPIC_REQUEST, [10, 18, 24, 34, 42, 50, 58, 66, 74, 82]) && Tagged(POST_TOPIC_RESPONSE, [10, 18, 26])
    ensures Tagged(PUBLIC_SERVICE_REQUEST, [10, 18, 26]) && Tagged(PUBLIC_SERVICE_RESPONSE, [10, 18, 26, 32])
  {
    hide Tagged;
    BodiesFit();
    TaggedBy(REPLY_REQUEST, [10, 18, 24, 34, 42, 50, 58, 66, 74, 82]);
    TaggedBy(REPLY_RESPONSE, [10, 18, 26]);
    TaggedBy(POST_TOPIC_REQUEST, [10, 18, 24, 34, 42, 50, 58, 66, 74, 82]);
    TaggedBy(POST_TOPIC_RESPONSE, [10, 18, 26]);
    TaggedBy(PUBLIC_SERVICE_REQUEST, [10, 18, 26]);
    TaggedBy(PUBLIC_SERVICE_RESPONSE, [10, 18, 26, 32]);
  }

  lemma GroupTags()
    ensures Tagged(GROUP_LBS_NEAR_REQUEST, [10, 17, 25, 32, 40, 48]) && Tagged(GROUP_LBS_NEAR_RESPONSE, [10, 16, 26])
    ensures Tagged(GROUP_CITY_REQUEST, [10, 18, 24, 32]) && Tagged(GROUP_CITY_RESPONSE, [10, 16, 26])
    ensures Tagged(PYTHON_CORE_REQUEST, [10, 18, 26, 34]) && Tagged(PYTHON_CORE_RESPONSE, [10, 18, 24])
  {
    hide Tagged;
    GroupBodiesFit();
    TaggedBy(GROUP_LBS_NEAR_REQUEST, [10, 17, 25, 32, 40, 48]);
    TaggedBy(GROUP_LBS_NEAR_RESPONSE, [10, 16, 26]);
    TaggedBy(GROUP_CITY_REQUEST, [10, 18, 24, 32]);
    TaggedBy(GROUP_CITY_RESPONSE, [10, 16, 26]);
    TaggedBy(PYTHON_CORE_REQUEST, [10, 18, 26, 34]);
    TaggedBy(PYTHON_CORE_RESPONSE, [10, 18, 24]);
  }

  lemma EnvelopeTags()
    ensures Tagged(SERVICE_PACKET, [8, 18, 26, 34, 42, 50, 58, 66, 74, 82, 90, 98, 106])
    ensures Tagged(SERVICE_REQUEST, [10, 16, 26, 34]) && Tagged(SERVICE_RESPONSE, [10, 16, 26, 32, 42])
  {
    hide Tagged;
    SchemasFit();
    EnvelopesFit();
    TaggedBy(SERVICE_PACKET, [8, 18, 26, 34, 42, 50, 58, 66, 74, 82, 90, 98, 106]);
    TaggedBy(SERVICE_REQUEST, [10, 16, 26, 34]);
    TaggedBy(SERVICE_RESPONSE, [10, 16, 26, 32, 42]);
  }
}
